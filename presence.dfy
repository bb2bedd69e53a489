/**
  The presence state machine driven by heartbeats (glcd-heartbeat.go), as
  functions of the registry before one heartbeat: the registry after it and
  the presence-change envelopes it publishes. The step method in module
  Services is proved against these.
 */
module Presence {
  import opened MessageTypes

  /** The heartbeat as the consumer loop stores it: its timestamp replaced by the receive time. */
  function Stamped(hb: Heartbeat, now: int): (r: Heartbeat)
    ensures r.clientId == hb.clientId && r.status == hb.status && r.timestamp == now
  {
    hb.(timestamp := now)
  }

  /** The record created for a client first seen through `hb`. */
  function NewClient(hb: Heartbeat): (c: Client)
    ensures c.clientId == hb.clientId && !c.authenticated && c.heartbeat == hb
    ensures c.name == "" && c.state == None
  {
    Client("", hb.clientId, false, None, hb)
  }

  /** The presence-change envelope announcing `hb`. */
  function HeartbeatNotice(hb: Heartbeat): Message {
    Message(hb.clientId, PlayerHeartbeatTag, HeartbeatData(hb))
  }

  /** `hb` is announced when its sender is unseen or its status differs from the stored one. */
  predicate Notifies(clients: Registry, hb: Heartbeat) {
    hb.clientId !in clients || clients[hb.clientId].heartbeat.status != hb.status
  }

  /** What one heartbeat publishes: at most one envelope, and only on creation or a status change. */
  function Notices(clients: Registry, hb: Heartbeat): (r: seq<Message>)
    ensures |r| <= 1
    ensures |r| == 1 <==> hb.clientId !in clients || clients[hb.clientId].heartbeat.status != hb.status
    ensures forall m :: m in r ==> m.clientId == hb.clientId && m.typ == PlayerHeartbeatTag && m.data == HeartbeatData(hb)
  {
    if Notifies(clients, hb) then [HeartbeatNotice(hb)] else []
  }

  /**
    The registry after one heartbeat: a QUIT removes the sender whether or not it
    was present; any other status stores the heartbeat on the sender's record,
    creating an unauthenticated record for an unseen sender.
   */
  function AfterHeartbeat(clients: Registry, hb: Heartbeat): (r: Registry)
    ensures hb.status == Quit ==> hb.clientId !in r
    ensures hb.status != Quit ==> hb.clientId in r && r[hb.clientId].heartbeat == hb
    ensures hb.status != Quit && hb.clientId !in clients ==> r[hb.clientId] == NewClient(hb)
    ensures hb.status != Quit && hb.clientId in clients ==>
      r[hb.clientId] == clients[hb.clientId].(heartbeat := hb)
    ensures forall k :: k != hb.clientId ==> (k in r <==> k in clients)
    ensures forall k :: k != hb.clientId && k in r ==> r[k] == clients[k]
    ensures KeyedByClientId(clients) ==> KeyedByClientId(r)
    ensures NoQuitStored(clients) ==> NoQuitStored(r)
  {
    if hb.status == Quit then
      clients - {hb.clientId}
    else if hb.clientId in clients then
      clients[hb.clientId := clients[hb.clientId].(heartbeat := hb)]
    else
      clients[hb.clientId := NewClient(hb)]
  }

  /** A QUIT from an unseen sender leaves the registry as it was but is still announced once. */
  lemma UnseenQuit(clients: Registry, hb: Heartbeat)
    requires hb.clientId !in clients && hb.status == Quit
    ensures AfterHeartbeat(clients, hb) == clients
    ensures Notices(clients, hb) == [HeartbeatNotice(hb)]
  {
  }

  /**
    A QUIT from a registered client removes it and is announced exactly once:
    no stored status is QUIT, so the incoming one always differs.
   */
  lemma KnownQuitAnnouncedOnce(clients: Registry, hb: Heartbeat)
    requires NoQuitStored(clients) && hb.clientId in clients && hb.status == Quit
    ensures hb.clientId !in AfterHeartbeat(clients, hb)
    ensures Notices(clients, hb) == [HeartbeatNotice(hb)]
  {
  }

  /** Heartbeats applied in order (each already stamped): the final registry and every envelope published. */
  function Replay(clients: Registry, hbs: seq<Heartbeat>): (Registry, seq<Message>)
    decreases |hbs|
  {
    if hbs == [] then (clients, [])
    else
      var rest := Replay(AfterHeartbeat(clients, hbs[0]), hbs[1..]);
      (rest.0, Notices(clients, hbs[0]) + rest.1)
  }

  /** The number of status changes along `hbs`, counted from the stored status `status`. */
  function Transitions(status: string, hbs: seq<Heartbeat>): nat
    decreases |hbs|
  {
    if hbs == [] then 0
    else (if hbs[0].status != status then 1 else 0) + Transitions(hbs[0].status, hbs[1..])
  }

  /** All of `hbs` come from `id` and none of them is a QUIT. */
  ghost predicate LiveRun(id: string, hbs: seq<Heartbeat>) {
    forall i :: 0 <= i < |hbs| ==> hbs[i].clientId == id && hbs[i].status != Quit
  }

  /** For a known client, a run of non-QUIT heartbeats is announced once per status change. */
  lemma {:induction false} KnownClientNotices(clients: Registry, id: string, hbs: seq<Heartbeat>)
    requires id in clients && LiveRun(id, hbs)
    ensures |Replay(clients, hbs).1| == Transitions(clients[id].heartbeat.status, hbs)
    decreases |hbs|
  {
    if hbs != [] {
      var next := AfterHeartbeat(clients, hbs[0]);
      assert LiveRun(id, hbs[1..]) by {
        forall i | 0 <= i < |hbs[1..]| ensures hbs[1..][i].clientId == id && hbs[1..][i].status != Quit {
          assert hbs[1..][i] == hbs[i + 1];
        }
      }
      KnownClientNotices(next, id, hbs[1..]);
      assert next[id].heartbeat.status == hbs[0].status;
    }
  }

  /**
    For an unseen client, a non-empty run of non-QUIT heartbeats is announced
    exactly one time more than its number of status changes: once on creation,
    then once per change, never more.
   */
  lemma {:induction false} NewClientNotices(clients: Registry, id: string, hbs: seq<Heartbeat>)
    requires id !in clients && |hbs| > 0 && LiveRun(id, hbs)
    ensures |Replay(clients, hbs).1| == 1 + Transitions(hbs[0].status, hbs[1..])
  {
    var next := AfterHeartbeat(clients, hbs[0]);
    assert LiveRun(id, hbs[1..]) by {
      forall i | 0 <= i < |hbs[1..]| ensures hbs[1..][i].clientId == id && hbs[1..][i].status != Quit {
        assert hbs[1..][i] == hbs[i + 1];
      }
    }
    KnownClientNotices(next, id, hbs[1..]);
  }

  /** A run whose statuses never change has no transitions. */
  lemma {:induction false} SteadyRunHasNoTransitions(status: string, hbs: seq<Heartbeat>)
    requires forall i :: 0 <= i < |hbs| ==> hbs[i].status == status
    ensures Transitions(status, hbs) == 0
    decreases |hbs|
  {
    if hbs != [] {
      SteadyRunHasNoTransitions(status, hbs[1..]);
    }
  }

  /**
    Heartbeats as the dispatcher builds them carry the empty status, so a run of
    them from an unseen client is announced exactly once, on creation.
   */
  lemma WiredHeartbeatsAnnounceOnce(clients: Registry, id: string, hbs: seq<Heartbeat>)
    requires id !in clients && |hbs| > 0
    requires forall i :: 0 <= i < |hbs| ==> hbs[i].clientId == id && hbs[i].status == ""
    ensures |Replay(clients, hbs).1| == 1
  {
    NewClientNotices(clients, id, hbs);
    SteadyRunHasNoTransitions("", hbs[1..]);
  }

  /**
    The earlier consumer loop of glcd-handlers.go as written; None stands for the
    nil dereference. The record it creates for an unseen id is bound to a
    shadowing local, so the outer record stays nil and building the announcement
    dereferences it.
   */
  function HandlersHeartbeatAsWritten(clients: Registry, hb: Heartbeat): (r: Option<(Registry, seq<Message>)>)
    ensures r.None? <==> hb.clientId !in clients
    ensures r.Some? ==> |r.value.1| <= 1
    ensures r.Some? && hb.status == Quit ==> hb.clientId !in r.value.0
    ensures r.Some? && hb.status != Quit ==> hb.clientId in r.value.0 && r.value.0[hb.clientId].heartbeat == hb
  {
    var outer: Option<Client> := if hb.clientId in clients then Some(clients[hb.clientId]) else None;
    var notify := outer.None? || outer.value.heartbeat.status != hb.status;
    if notify && outer.None? then
      None
    else
      var published := if notify then [Message(outer.value.clientId, PlayerHeartbeatTag, HeartbeatData(hb))] else [];
      if hb.status == Quit then Some((clients - {hb.clientId}, published))
      else Some((clients[hb.clientId := outer.value.(heartbeat := hb)], published))
  }

  /** The earlier loop fails on the first heartbeat of every client, where the canonical one registers it. */
  lemma HandlersHeartbeatFailsOnUnseen(clients: Registry, hb: Heartbeat)
    requires hb.clientId !in clients
    ensures HandlersHeartbeatAsWritten(clients, hb) == None
    ensures hb.status != Quit ==> hb.clientId in AfterHeartbeat(clients, hb)
    ensures |Notices(clients, hb)| == 1
  {
  }

  /** A concrete input: the very first heartbeat the daemon receives. */
  lemma HandlersHeartbeatFirstHeartbeat()
    ensures HandlersHeartbeatAsWritten(map[], Heartbeat("p1", 100, "")) == None
    ensures AfterHeartbeat(map[], Heartbeat("p1", 100, "")) == map["p1" := NewClient(Heartbeat("p1", 100, ""))]
  {
  }

  /** On a registered client the earlier loop and the canonical one agree. */
  lemma HandlersHeartbeatAgreesOnKnown(clients: Registry, hb: Heartbeat)
    requires KeyedByClientId(clients) && hb.clientId in clients
    ensures HandlersHeartbeatAsWritten(clients, hb) == Some((AfterHeartbeat(clients, hb), Notices(clients, hb)))
  {
  }
}
