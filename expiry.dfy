/**
  The expiry sweep (CleanupClients in glcd.go and glcd-client-cleanup.go):
  with a cutoff taken before the sweep period, every client whose last
  heartbeat is older than the cutoff is removed. The sweep methods are proved
  against these functions.
 */
module Expiry {
  import opened MessageTypes

  /** The records a sweep with cutoff `exp` keeps, unchanged. */
  function Survivors(clients: Registry, exp: int): (r: Registry)
    ensures forall k :: k in r <==> k in clients && clients[k].heartbeat.timestamp >= exp
    ensures forall k :: k in r ==> r[k] == clients[k]
  {
    map k | k in clients && clients[k].heartbeat.timestamp >= exp :: clients[k]
  }

  /** The records a sweep with cutoff `exp` removes. */
  function Expired(clients: Registry, exp: int): (r: Registry)
    ensures forall k :: k in r <==> k in clients && clients[k].heartbeat.timestamp < exp
    ensures forall k :: k in r ==> r[k] == clients[k]
  {
    map k | k in clients && clients[k].heartbeat.timestamp < exp :: clients[k]
  }

  /** A sweep splits the registry into what it keeps and what it removes, with nothing lost or shared. */
  lemma SweepPartitions(clients: Registry, exp: int)
    ensures Survivors(clients, exp).Keys !! Expired(clients, exp).Keys
    ensures Survivors(clients, exp) + Expired(clients, exp) == clients
    ensures |Survivors(clients, exp)| + |Expired(clients, exp)| == |clients|
  {
    var s, e := Survivors(clients, exp), Expired(clients, exp);
    assert s.Keys + e.Keys == clients.Keys;
    assert |s.Keys + e.Keys| == |s.Keys| + |e.Keys|;
  }

  /** Sweeping again with the same cutoff removes nothing more. */
  lemma SweepIdempotent(clients: Registry, exp: int)
    ensures Survivors(Survivors(clients, exp), exp) == Survivors(clients, exp)
  {
  }

  /** Two sweeps in a row amount to one sweep with the later cutoff. */
  lemma SweepsCompose(clients: Registry, exp1: int, exp2: int)
    requires exp1 <= exp2
    ensures Survivors(Survivors(clients, exp1), exp2) == Survivors(clients, exp2)
  {
  }

  /** A sweep keeps every record stored under its own client id. */
  lemma SweepKeepsKeyed(clients: Registry, exp: int)
    requires KeyedByClientId(clients)
    ensures KeyedByClientId(Survivors(clients, exp))
  {
  }

  /** A sweep stores no new status, so no QUIT appears among the records it keeps. */
  lemma SweepKeepsNoQuit(clients: Registry, exp: int)
    requires NoQuitStored(clients)
    ensures NoQuitStored(Survivors(clients, exp))
  {
  }

  /** The QUIT announcement the notifying sweep publishes for a removed record. */
  function QuitNotice(c: Client): (m: Message)
    ensures m.clientId == c.clientId && m.typ == PlayerHeartbeatTag
    ensures m.data.HeartbeatData? && m.data.heartbeat.status == Quit
    ensures m.data.heartbeat.clientId == c.heartbeat.clientId
    ensures m.data.heartbeat.timestamp == c.heartbeat.timestamp
  {
    Message(c.clientId, PlayerHeartbeatTag, HeartbeatData(c.heartbeat.(status := Quit)))
  }

  /**
    `notes` announces exactly the records of `removed`, in some order: each
    envelope is the QUIT notice of a removed record, no client is announced
    twice, and every removed client is announced.
   */
  ghost predicate QuitNoticesFor(notes: seq<Message>, removed: Registry) {
    && (forall i :: 0 <= i < |notes| ==>
          notes[i].clientId in removed && notes[i] == QuitNotice(removed[notes[i].clientId]))
    && (forall i, j :: 0 <= i < j < |notes| ==> notes[i].clientId != notes[j].clientId)
    && (forall k :: k in removed ==> exists i :: 0 <= i < |notes| && notes[i].clientId == k)
  }

  /** The client ids a sequence of envelopes is addressed to. */
  function Recipients(notes: seq<Message>): (ids: seq<string>)
    ensures |ids| == |notes|
    ensures forall i :: 0 <= i < |notes| ==> ids[i] == notes[i].clientId
  {
    seq(|notes|, i requires 0 <= i < |notes| => notes[i].clientId)
  }

  /** A sequence without repetitions has as many distinct elements as it has entries. */
  lemma {:induction false} DistinctCardinality(s: seq<string>)
    requires forall i, j :: 0 <= i < j < |s| ==> s[i] != s[j]
    ensures |set x | x in s| == |s|
    decreases |s|
  {
    if s != [] {
      var tail := s[1..];
      DistinctCardinality(tail);
      assert (set x | x in s) == {s[0]} + (set x | x in tail);
      assert s[0] !in (set x | x in tail);
    }
  }

  /** A notifying sweep publishes exactly as many QUIT notices as it removes records. */
  lemma QuitNoticeCount(notes: seq<Message>, removed: Registry)
    requires QuitNoticesFor(notes, removed)
    ensures |notes| == |removed|
  {
    var ids := Recipients(notes);
    DistinctCardinality(ids);
    assert (set x | x in ids) == removed.Keys by {
      forall k | k in removed ensures k in ids {
        var i :| 0 <= i < |notes| && notes[i].clientId == k;
        assert ids[i] == k;
      }
    }
  }

  /**
    Progress of a notifying sweep that still has `pending` keys to visit:
    `notes` are the QUIT notices published so far, addressed to `ids`, each a
    removed client already visited, none twice, and every removed client
    already visited among them.
   */
  ghost predicate AnnouncedSoFar(notes: seq<Message>, ids: seq<string>, removed: Registry, pending: set<string>) {
    && |ids| == |notes|
    && (forall i :: 0 <= i < |notes| ==>
          ids[i] == notes[i].clientId && ids[i] in removed && ids[i] !in pending &&
          notes[i] == QuitNotice(removed[ids[i]]))
    && (forall i, j :: 0 <= i < j < |ids| ==> ids[i] != ids[j])
    && (forall k :: k in removed && k !in pending ==> k in ids)
  }

  /** Visiting a removed client and announcing it keeps the sweep's progress. */
  lemma AnnounceStep(notes: seq<Message>, ids: seq<string>, removed: Registry, pending: set<string>, k: string)
    requires AnnouncedSoFar(notes, ids, removed, pending)
    requires k in pending && k in removed && removed[k].clientId == k
    ensures AnnouncedSoFar(notes + [QuitNotice(removed[k])], ids + [k], removed, pending - {k})
  {
    var notes', ids' := notes + [QuitNotice(removed[k])], ids + [k];
    forall i | 0 <= i < |notes'|
      ensures ids'[i] == notes'[i].clientId && ids'[i] in removed && ids'[i] !in pending - {k} &&
              notes'[i] == QuitNotice(removed[ids'[i]])
    {
      if i < |notes| {
        assert notes'[i] == notes[i] && ids'[i] == ids[i];
      }
    }
  }

  /** Visiting a client that stays announces nothing and keeps the sweep's progress. */
  lemma SkipStep(notes: seq<Message>, ids: seq<string>, removed: Registry, pending: set<string>, k: string)
    requires AnnouncedSoFar(notes, ids, removed, pending)
    requires k in pending && k !in removed
    ensures AnnouncedSoFar(notes, ids, removed, pending - {k})
  {
  }

  /** A finished notifying sweep has announced exactly the removed clients. */
  lemma AnnouncedAll(notes: seq<Message>, ids: seq<string>, removed: Registry)
    requires AnnouncedSoFar(notes, ids, removed, {})
    ensures QuitNoticesFor(notes, removed)
  {
    forall k | k in removed ensures exists i :: 0 <= i < |notes| && notes[i].clientId == k {
      var i :| 0 <= i < |ids| && ids[i] == k;
    }
  }
}
