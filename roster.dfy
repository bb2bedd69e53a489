/**
  The roster of a knock reply (HandleKnockChannel in glcd-handlers.go): one
  entry per registered client, filled into a fixed-size slice by an index
  counter while ranging over the registry.
 */
module Roster {
  import opened MessageTypes

  /** The client ids a roster lists. */
  function ListedIds(players: seq<PlayerInfo>): set<string> {
    set j | 0 <= j < |players| :: players[j].clientId
  }

  /** The client ids the records of a registry carry. */
  function RecordIds(clients: Registry): set<string> {
    set k | k in clients :: clients[k].clientId
  }

  /**
    `players` lists every record of `clients` once: one entry per record, each
    with an empty name, exactly the records' client ids listed, and no id listed
    twice when records are keyed by their own id.
   */
  ghost predicate IsRosterOf(players: seq<PlayerInfo>, clients: Registry) {
    && |players| == |clients|
    && (forall j :: 0 <= j < |players| ==> players[j].name == "")
    && ListedIds(players) == RecordIds(clients)
    && (KeyedByClientId(clients) ==>
          forall i, j :: 0 <= i < j < |players| ==> players[i].clientId != players[j].clientId)
  }

  /** In a keyed registry the roster's ids are exactly the registered client ids. */
  lemma RosterListsRegisteredIds(players: seq<PlayerInfo>, clients: Registry)
    requires KeyedByClientId(clients) && IsRosterOf(players, clients)
    ensures ListedIds(players) == clients.Keys
  {
    assert RecordIds(clients) == clients.Keys by {
      forall k | k in clients ensures k in RecordIds(clients) {
        assert clients[k].clientId == k;
      }
    }
  }

  /** A roster listing the records in the order of an enumeration of the registry's keys is a roster of it. */
  lemma RosterFromEnumeration(players: seq<PlayerInfo>, order: seq<string>, clients: Registry)
    requires |players| == |order| == |clients|
    requires forall j :: 0 <= j < |order| ==>
      order[j] in clients && players[j] == PlayerInfo("", clients[order[j]].clientId)
    requires forall j, j' :: 0 <= j < j' < |order| ==> order[j] != order[j']
    requires forall k :: k in clients ==> k in order
    ensures IsRosterOf(players, clients)
  {
    forall id | id in RecordIds(clients) ensures id in ListedIds(players) {
      var k :| k in clients && clients[k].clientId == id;
      var j :| 0 <= j < |order| && order[j] == k;
      assert players[j].clientId == id;
    }
    if KeyedByClientId(clients) {
      forall j, j' | 0 <= j < j' < |players|
        ensures players[j].clientId != players[j'].clientId
      {
        assert players[j].clientId == order[j];
        assert players[j'].clientId == order[j'];
      }
    }
  }

  /** Builds the roster; the registry is ranged over in an unspecified order. */
  method BuildRoster(clients: Registry) returns (players: seq<PlayerInfo>)
    ensures IsRosterOf(players, clients)
  {
    var slots := new PlayerInfo[|clients|];
    var i := 0;
    var keys := clients.Keys;
    assert |keys| == |clients|;
    ghost var order: seq<string> := [];
    while keys != {}
      invariant keys <= clients.Keys
      invariant i == |order| && i + |keys| == |clients| && i <= slots.Length
      invariant forall j :: 0 <= j < i ==>
        order[j] in clients && order[j] !in keys && slots[j] == PlayerInfo("", clients[order[j]].clientId)
      invariant forall j, j' :: 0 <= j < j' < i ==> order[j] != order[j']
      invariant forall k :: k in clients && k !in keys ==> k in order
      decreases keys
    {
      var k :| k in keys;
      assert |keys - {k}| == |keys| - 1;
      slots[i] := PlayerInfo("", clients[k].clientId);
      order := order + [k];
      i := i + 1;
      keys := keys - {k};
    }
    players := slots[..];
    RosterFromEnumeration(players, order, clients);
  }
}
