/** The handlers of routes/connections.js: a connection request between two
    users, its acceptance (bounded by an instructor's student limit) or
    rejection by the receiver, the listings, and removal. Connections are
    numbered by a counter standing in for the store's id generator. */
module ConnectionsRoutes {
  import opened Common
  import opened Domain

  /** The connection links the two users, in either direction. */
  predicate Between(c: Connection, a: Id, b: Id) {
    (c.sender == a && c.receiver == b) || (c.sender == b && c.receiver == a)
  }

  /** The other party of a connection, seen from `user`. */
  function OtherParty(c: Connection, user: Id): (r: Id)
    ensures c.sender == user ==> r == c.receiver
    ensures c.sender != user ==> r == c.sender
  {
    if c.sender == user then c.receiver else c.sender
  }

  /** The user is the connection's sender or receiver. */
  predicate Party(c: Connection, user: Id) {
    c.sender == user || c.receiver == user
  }

  /** The accepted connections of `user` whose other party is a student: the
      count the accept route compares with the student limit. */
  function StudentLinks(connections: map<nat, Connection>, users: map<Id, User>, user: Id): (r: set<nat>)
    ensures forall k :: k in r <==> (k in connections && connections[k].status == Accepted
      && Party(connections[k], user)
      && OtherParty(connections[k], user) in users && users[OtherParty(connections[k], user)].role == Student)
  {
    set k | k in connections && connections[k].status == Accepted && Party(connections[k], user)
      && OtherParty(connections[k], user) in users && users[OtherParty(connections[k], user)].role == Student
  }

  /** The refusal of POST /request, if any: 400 for oneself, 404 for an unknown
      receiver, 400 when the two are already connected in any direction or status. */
  function RequestRefusal(connections: map<nat, Connection>, users: map<Id, User>, user: Id, receiver: Id): (r: Option<Status>)
    ensures r.None? <==> (receiver != user && receiver in users
      && forall k :: k in connections ==> !Between(connections[k], user, receiver))
    ensures receiver == user ==> r == Some(BadRequest)
    ensures receiver != user && receiver !in users ==> r == Some(NotFound)
    ensures r.Some? ==> r.value == BadRequest || r.value == NotFound
  {
    if receiver == user then Some(BadRequest)
    else if receiver !in users then Some(NotFound)
    else if exists k :: k in connections && Between(connections[k], user, receiver) then Some(BadRequest)
    else None
  }

  /** POST /request with only live connections blocking: a rejected connection
      no longer stands in the way of a new request. */
  function RequestRefusalAllowingRetry(connections: map<nat, Connection>, users: map<Id, User>, user: Id, receiver: Id): (r: Option<Status>)
    ensures r.None? <==> (receiver != user && receiver in users
      && forall k :: k in connections && Between(connections[k], user, receiver) ==> connections[k].status == Rejected)
    ensures r.Some? ==> r.value == BadRequest || r.value == NotFound
    ensures r.None? ==> (RequestRefusal(connections, users, user, receiver).None?
      || exists k :: k in connections && Between(connections[k], user, receiver) && connections[k].status == Rejected)
  {
    if receiver == user then Some(BadRequest)
    else if receiver !in users then Some(NotFound)
    else if exists k :: k in connections && Between(connections[k], user, receiver) && connections[k].status != Rejected then Some(BadRequest)
    else None
  }

  /** The refusal of DELETE /:id: only a party may remove, and the receiver only as an instructor. */
  function RemoveRefusal(c: Connection, user: Id, role: Role): (r: Option<Status>)
    ensures r.None? <==> Party(c, user) && (c.receiver == user ==> role == Instructor)
    ensures r.Some? ==> r.value == Forbidden
  {
    var isSender := c.sender == user;
    var isReceiver := c.receiver == user;
    if !isSender && !isReceiver then Some(Forbidden)
    else if isReceiver && role != Instructor then Some(Forbidden)
    else None
  }

  class ConnectionsApi {
    var users: map<Id, User>
    var connections: map<nat, Connection>
    var nextId: nat

    /** Ids come from the counter; no one is connected to themselves; and two
      users share at most one connection. */
    predicate Valid()
      reads this
    {
      (forall k :: k in connections ==> k < nextId)
      && (forall k :: k in connections ==> connections[k].sender != connections[k].receiver)
      && (forall j, k :: j in connections && k in connections && j != k ==>
            !Between(connections[j], connections[k].sender, connections[k].receiver))
    }

    constructor (users: map<Id, User>)
      ensures this.users == users && connections == map[] && nextId == 0
      ensures Valid()
    {
      this.users := users;
      connections := map[];
      nextId := 0;
    }

    /** POST /request: a new pending connection from the requester. */
    method Request(user: Id, receiver: Id, message: string) returns (r: Result<nat>)
      requires Valid()
      modifies this
      ensures Valid()
      ensures r.Fail? <==> RequestRefusal(old(connections), users, user, receiver).Some?
      ensures r.Fail? ==> r.status == RequestRefusal(old(connections), users, user, receiver).value
      ensures r.Fail? ==> connections == old(connections) && nextId == old(nextId)
      ensures r.Ok? ==> r.value == old(nextId) && nextId == old(nextId) + 1
      ensures r.Ok? ==> connections == old(connections)[r.value := Connection(user, receiver, Pending, message, None)]
      ensures users == old(users)
    {
      var refusal := RequestRefusal(connections, users, user, receiver);
      if refusal.Some? {
        return Fail(refusal.value);
      }
      connections := connections[nextId := Connection(user, receiver, Pending, message, None)];
      r := Ok(nextId);
      nextId := nextId + 1;
    }

    /** PUT /accept/:id: only the receiver accepts; an instructor receiver is
      refused once their accepted student connections reach the limit. */
    method Accept(id: nat, user: Id, role: Role, now: nat) returns (r: Result<()>)
      requires Valid()
      modifies this
      ensures Valid()
      ensures id !in old(connections) ==> r == Fail(NotFound)
      ensures id in old(connections) && old(connections)[id].receiver != user ==> r == Fail(Forbidden)
      ensures r.Ok? <==> (id in old(connections) && old(connections)[id].receiver == user
        && (role == Instructor ==> user in users && |StudentLinks(old(connections), users, user)| < users[user].studentLimit))
      ensures r.Ok? ==> connections == old(connections)[id := old(connections)[id].(status := Accepted, updatedAt := Some(now))]
      ensures r.Fail? ==> connections == old(connections)
      ensures r.Ok? && role == Instructor ==> |StudentLinks(connections, users, user)| <= users[user].studentLimit
      ensures users == old(users) && nextId == old(nextId)
    {
      if id !in connections {
        return Fail(NotFound);
      }
      var c := connections[id];
      if c.receiver != user {
        return Fail(Forbidden);
      }
      if role == Instructor {
        if user !in users {
          return Fail(NotFound);
        }
        var currentStudents := |StudentLinks(connections, users, user)|;
        if currentStudents >= users[user].studentLimit {
          return Fail(BadRequest);
        }
      }
      var before := connections;
      connections := connections[id := c.(status := Accepted, updatedAt := Some(now))];
      AcceptAddsAtMostOne(before, users, user, id, now);
      return Ok(());
    }

    /** PUT /reject/:id: only the receiver rejects. */
    method Reject(id: nat, user: Id, now: nat) returns (r: Result<()>)
      requires Valid()
      modifies this
      ensures Valid()
      ensures id !in old(connections) ==> r == Fail(NotFound)
      ensures r.Ok? <==> id in old(connections) && old(connections)[id].receiver == user
      ensures r.Ok? ==> connections == old(connections)[id := old(connections)[id].(status := Rejected, updatedAt := Some(now))]
      ensures r.Fail? ==> connections == old(connections)
      ensures users == old(users) && nextId == old(nextId)
    {
      if id !in connections {
        return Fail(NotFound);
      }
      if connections[id].receiver != user {
        return Fail(Forbidden);
      }
      connections := connections[id := connections[id].(status := Rejected, updatedAt := Some(now))];
      return Ok(());
    }

    /** DELETE /:id. */
    method Remove(id: nat, user: Id, role: Role) returns (r: Result<()>)
      requires Valid()
      modifies this
      ensures Valid()
      ensures id !in old(connections) ==> r == Fail(NotFound)
      ensures r.Ok? <==> id in old(connections) && RemoveRefusal(old(connections)[id], user, role).None?
      ensures connections == if r.Ok? then old(connections) - {id} else old(connections)
      ensures users == old(users) && nextId == old(nextId)
    {
      if id !in connections {
        return Fail(NotFound);
      }
      var refusal := RemoveRefusal(connections[id], user, role);
      if refusal.Some? {
        return Fail(refusal.value);
      }
      connections := connections - {id};
      return Ok(());
    }

    /** GET /my-connections: the accepted or pending connections of the user. */
    function MyConnections(user: Id): (r: set<nat>)
      reads this
      ensures forall k :: k in r <==> (k in connections && Party(connections[k], user)
        && (connections[k].status == Accepted || connections[k].status == Pending))
    {
      set k | k in connections && Party(connections[k], user)
        && (connections[k].status == Accepted || connections[k].status == Pending)
    }

    /** GET /pending-requests, GET /sent-requests and GET /accepted-connections. */
    function Received(user: Id, status: ConnStatus): (r: set<nat>)
      reads this
      ensures forall k :: k in r <==> k in connections && connections[k].receiver == user && connections[k].status == status
    {
      set k | k in connections && connections[k].receiver == user && connections[k].status == status
    }

    function Sent(user: Id): (r: set<nat>)
      reads this
      ensures forall k :: k in r <==> k in connections && connections[k].sender == user && connections[k].status == Pending
    {
      set k | k in connections && connections[k].sender == user && connections[k].status == Pending
    }
  }

  /** Accepting one connection adds at most that connection to the count. */
  lemma AcceptAddsAtMostOne(before: map<nat, Connection>, users: map<Id, User>, user: Id, id: nat, now: nat)
    requires id in before
    ensures var after := before[id := before[id].(status := Accepted, updatedAt := Some(now))];
      StudentLinks(after, users, user) <= StudentLinks(before, users, user) + {id}
      && |StudentLinks(after, users, user)| <= |StudentLinks(before, users, user)| + 1
  {
    var after := before[id := before[id].(status := Accepted, updatedAt := Some(now))];
    var a, b := StudentLinks(after, users, user), StudentLinks(before, users, user);
    forall k | k in a
      ensures k in b + {id}
    {
      if k != id {
        assert after[k] == before[k];
      }
    }
    SubsetCard(a, b + {id});
  }

  lemma SubsetCard(a: set<nat>, b: set<nat>)
    requires a <= b
    ensures |a| <= |b|
  {
    assert b == a + (b - a);
  }

  /** A request and an existing connection between the same two users never coexist:
      the request is refused whatever the direction or status of the existing one. */
  lemma ExistingConnectionBlocks(connections: map<nat, Connection>, users: map<Id, User>, user: Id, receiver: Id, k: nat)
    requires k in connections && Between(connections[k], user, receiver)
    ensures RequestRefusal(connections, users, user, receiver).Some?
    ensures receiver in users ==> RequestRefusal(connections, users, user, receiver) == Some(BadRequest)
  {
  }
}
