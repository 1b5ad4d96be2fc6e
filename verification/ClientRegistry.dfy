/** The registry of live connections of quic/server/client_registry.go: at most one
    connection per user, and removal only of the connection that is named. */
module ClientRegistry {
  import opened HeartbeatKey
  import opened Options

  /** A live connection; connID tells it from every other connection, of the same user too. */
  datatype Client = Client(uid: string, sid: string, connID: ConnID)

  type Clients = map<string, Client>

  /** The named connection is the one registered for its user. connID 0 names none. */
  predicate IsCurrent(clients: Clients, uid: string, sid: string, connID: ConnID)
  {
    connID != 0 && uid in clients && clients[uid].sid == sid && clients[uid].connID == connID
  }

  function RemoveMatching(clients: Clients, uid: string, sid: string, connID: ConnID): Clients
  {
    if IsCurrent(clients, uid, sid, connID) then clients - {uid} else clients
  }

  class Registry {
    var clients: Clients

    /** Every user's connection is their own. */
    ghost predicate Valid()
      reads this
    {
      forall uid :: uid in clients ==> clients[uid].uid == uid
    }

    constructor ()
      ensures Valid() && clients == map[]
    {
      clients := map[];
    }

    /** The answer names the current connection of the user, the only one that RemoveIfMatch would remove. */
    method Get(uid: string) returns (c: Option<Client>)
      requires Valid()
      ensures c.None? ==> forall sid, connID :: !IsCurrent(clients, uid, sid, connID)
      ensures c.Some? ==> c.value.uid == uid
      ensures c.Some? ==> forall sid, connID ::
                IsCurrent(clients, uid, sid, connID) <==> connID != 0 && c.value == Client(uid, sid, connID)
    {
      c := if uid in clients then Some(clients[uid]) else None;
    }

    /** The earlier connection of the user, if any, is replaced. */
    method Register(c: Client)
      modifies this
      ensures clients == old(clients)[c.uid := c]
      ensures c.connID != 0 ==> IsCurrent(clients, c.uid, c.sid, c.connID)
      ensures old(Valid()) ==> Valid()
    {
      clients := clients[c.uid := c];
    }

    method IsCurrentConn(uid: string, sid: string, connID: ConnID) returns (r: bool)
      ensures r <==> IsCurrent(clients, uid, sid, connID)
    {
      if connID == 0 {
        return false;
      }
      if uid !in clients || clients[uid].sid != sid {
        return false;
      }
      return clients[uid].connID == connID;
    }

    method RemoveIfMatch(uid: string, sid: string, connID: ConnID) returns (removed: Option<Client>)
      modifies this
      ensures clients == RemoveMatching(old(clients), uid, sid, connID)
      ensures old(Valid()) ==> Valid()
      ensures removed == if IsCurrent(old(clients), uid, sid, connID) then Some(old(clients)[uid]) else None
    {
      if uid !in clients {
        return None;
      }
      var c := clients[uid];
      if c.sid != sid || connID == 0 || c.connID != connID {
        return None;
      }
      clients := clients - {uid};
      return Some(c);
    }
  }
}
