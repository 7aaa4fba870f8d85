/**
 * The connection-request lifecycle of thryve_app/views.py.
 *
 * Two tables: directed ConnectionRequest rows (sender, receiver, status,
 * message) and undirected Connection rows (user1, user2), each keyed by its
 * primary key. Five views change them: send, accept, decline, cancel and
 * remove. Every view finds its row with a lookup scoped to the acting user,
 * so a wrong id and a row the actor may not touch give the same "not found".
 *
 * The pure functions Send, Accept, Decline, Cancel and Remove give the new
 * tables and the outcome of each view; the class ConnectionStore holds the
 * tables as fields and its methods update them in place, specified by those
 * functions. Consistent is the invariant every view keeps: at most one request
 * and at most one connection per unordered pair of users, a request is
 * accepted exactly when its pair is connected (so a pending request never
 * coexists with a connection), and no declined row is ever kept.
 */
module Connections {
  import opened Wrappers
  import opened Text
  import opened Users

  datatype RequestStatus = Pending | Accepted | Declined

  datatype ConnectionRequest = ConnectionRequest(sender: UserId, receiver: UserId, status: RequestStatus, message: Option<string>)

  datatype Connection = Connection(user1: UserId, user2: UserId)

  type Requests = map<nat, ConnectionRequest>
  type Connections = map<nat, Connection>

  /** The JSON answer of a view, reduced to which branch produced it. */
  datatype Outcome = Success | AlreadyConnected | UserNotFound | RequestNotFound | ConnectionNotFound

  /** The user table and the two connection tables, with the next primary key of each. */
  datatype Db = Db(
    users: map<UserId, Account>,
    requests: Requests,
    connections: Connections,
    nextRequestId: nat,
    nextConnectionId: nat)

  // ---------------------------------------------------------------------------
  // Pairs and lookups

  /** {x, y} and {a, b} are the same unordered pair. */
  predicate SamePair(x: UserId, y: UserId, a: UserId, b: UserId)
  {
    (x == a && y == b) || (x == b && y == a)
  }

  predicate RequestBetween(r: ConnectionRequest, a: UserId, b: UserId)
  {
    SamePair(r.sender, r.receiver, a, b)
  }

  predicate ConnectionBetween(c: Connection, a: UserId, b: UserId)
  {
    SamePair(c.user1, c.user2, a, b)
  }

  /** Some Connection row joins a and b, in either orientation. */
  predicate Connected(connections: Connections, a: UserId, b: UserId)
  {
    exists k :: k in connections && ConnectionBetween(connections[k], a, b)
  }

  /** Some accepted request row joins a and b, in either direction. */
  predicate HasAcceptedRequest(requests: Requests, a: UserId, b: UserId)
  {
    exists k :: k in requests && requests[k].status == Accepted && RequestBetween(requests[k], a, b)
  }

  /** The scoped lookup of accept and decline: id, receiver = actor, status = pending. */
  predicate IncomingPending(requests: Requests, requestId: nat, actor: UserId)
  {
    requestId in requests && requests[requestId].receiver == actor && requests[requestId].status == Pending
  }

  /** The scoped lookup of cancel: id, sender = actor, status = pending. */
  predicate OutgoingPending(requests: Requests, requestId: nat, actor: UserId)
  {
    requestId in requests && requests[requestId].sender == actor && requests[requestId].status == Pending
  }

  /** The scoped lookup of remove: id, and the actor is user1 or user2. */
  predicate PartyTo(connections: Connections, connectionId: nat, actor: UserId)
  {
    connectionId in connections
    && (connections[connectionId].user1 == actor || connections[connectionId].user2 == actor)
  }

  /** The user on the other side of c from actor (user2 when actor is user1, else user1). */
  function OtherParty(c: Connection, actor: UserId): UserId
  {
    if c.user1 == actor then c.user2 else c.user1
  }

  /** The request table with every row between a and b deleted, whatever its direction or status. */
  function WithoutRequestsBetween(requests: Requests, a: UserId, b: UserId): (r: Requests)
    ensures forall k :: k in r <==> k in requests && !RequestBetween(requests[k], a, b)
    ensures forall k :: k in r ==> r[k] == requests[k]
  {
    map k | k in requests && !RequestBetween(requests[k], a, b) :: requests[k]
  }

  /** The stored message: the stripped text, or None when nothing but whitespace was sent. */
  function StoredMessage(raw: string): (m: Option<string>)
    ensures m == None <==> AllSpace(raw, Python)
    ensures m.Some? ==> m.value != "" && Trimmed(m.value, Python)
  {
    var t := Strip(raw, Python);
    if t == "" then None else Some(t)
  }

  // ---------------------------------------------------------------------------
  // The invariant

  predicate KeysBelowCounters(db: Db)
  {
    && (forall k :: k in db.requests ==> k < db.nextRequestId)
    && (forall k :: k in db.connections ==> k < db.nextConnectionId)
  }

  /** Every row names existing users (the foreign keys). */
  predicate RowsNameUsers(db: Db)
  {
    && (forall k :: k in db.requests ==> db.requests[k].sender in db.users && db.requests[k].receiver in db.users)
    && (forall k :: k in db.connections ==> db.connections[k].user1 in db.users && db.connections[k].user2 in db.users)
  }

  predicate NoDeclinedRows(requests: Requests)
  {
    forall k :: k in requests ==> requests[k].status != Declined
  }

  predicate AtMostOneRequestPerPair(requests: Requests)
  {
    forall i, j :: i in requests && j in requests && i != j ==>
      !RequestBetween(requests[j], requests[i].sender, requests[i].receiver)
  }

  predicate AtMostOneConnectionPerPair(connections: Connections)
  {
    forall i, j :: i in connections && j in connections && i != j ==>
      !ConnectionBetween(connections[j], connections[i].user1, connections[i].user2)
  }

  /** A request row is accepted exactly when its two users are connected. */
  predicate AcceptedIffConnected(requests: Requests, connections: Connections)
  {
    forall k :: k in requests ==>
      (requests[k].status == Accepted <==> Connected(connections, requests[k].sender, requests[k].receiver))
  }

  /** Every connection came from a request that is still kept, as accepted. */
  predicate ConnectionsHaveAcceptedRequest(requests: Requests, connections: Connections)
  {
    forall k :: k in connections ==> HasAcceptedRequest(requests, connections[k].user1, connections[k].user2)
  }

  predicate Consistent(db: Db)
  {
    && KeysBelowCounters(db)
    && RowsNameUsers(db)
    && NoDeclinedRows(db.requests)
    && AtMostOneRequestPerPair(db.requests)
    && AtMostOneConnectionPerPair(db.connections)
    && AcceptedIffConnected(db.requests, db.connections)
    && ConnectionsHaveAcceptedRequest(db.requests, db.connections)
  }

  /** Both tables empty. */
  function Empty(users: map<UserId, Account>): (db: Db)
    ensures Consistent(db)
  {
    Db(users, map[], map[], 0, 0)
  }

  // ---------------------------------------------------------------------------
  // The five views

  /** send_connection_request: unknown receiver, already connected, or purge the pair and create one pending request. */
  function Send(db: Db, actor: UserId, receiverId: UserId, rawMessage: string): (r: (Db, Outcome))
    ensures r.1 == UserNotFound <==> receiverId !in db.users
    ensures r.1 == AlreadyConnected <==> receiverId in db.users && Connected(db.connections, actor, receiverId)
    ensures r.1 == Success || r.1 == UserNotFound || r.1 == AlreadyConnected
    ensures r.1 != Success ==> r.0 == db
  {
    if receiverId !in db.users then (db, UserNotFound)
    else if Connected(db.connections, actor, receiverId) then (db, AlreadyConnected)
    else
      var purged := WithoutRequestsBetween(db.requests, actor, receiverId);
      var request := ConnectionRequest(actor, receiverId, Pending, StoredMessage(rawMessage));
      (db.(requests := purged[db.nextRequestId := request], nextRequestId := db.nextRequestId + 1), Success)
  }

  /** accept_connection_request: the receiver's pending request becomes accepted and a Connection(sender, receiver) is created. */
  function Accept(db: Db, actor: UserId, requestId: nat): (r: (Db, Outcome))
    ensures r.1 == Success <==> IncomingPending(db.requests, requestId, actor)
    ensures r.1 == Success || r.1 == RequestNotFound
    ensures r.1 != Success ==> r.0 == db
  {
    if IncomingPending(db.requests, requestId, actor) then
      var request := db.requests[requestId];
      (db.(requests := db.requests[requestId := request.(status := Accepted)],
           connections := db.connections[db.nextConnectionId := Connection(request.sender, request.receiver)],
           nextConnectionId := db.nextConnectionId + 1),
       Success)
    else (db, RequestNotFound)
  }

  /** decline_connection_request: the receiver's pending request row is deleted. */
  function Decline(db: Db, actor: UserId, requestId: nat): (r: (Db, Outcome))
    ensures r.1 == Success <==> IncomingPending(db.requests, requestId, actor)
    ensures r.1 == Success || r.1 == RequestNotFound
    ensures r.1 != Success ==> r.0 == db
  {
    if IncomingPending(db.requests, requestId, actor) then (db.(requests := db.requests - {requestId}), Success)
    else (db, RequestNotFound)
  }

  /** cancel_connection_request: the sender's pending request row is deleted. */
  function Cancel(db: Db, actor: UserId, requestId: nat): (r: (Db, Outcome))
    ensures r.1 == Success <==> OutgoingPending(db.requests, requestId, actor)
    ensures r.1 == Success || r.1 == RequestNotFound
    ensures r.1 != Success ==> r.0 == db
  {
    if OutgoingPending(db.requests, requestId, actor) then (db.(requests := db.requests - {requestId}), Success)
    else (db, RequestNotFound)
  }

  /** remove_connection: a party deletes the connection and every request between the two users. */
  function Remove(db: Db, actor: UserId, connectionId: nat): (r: (Db, Outcome))
    ensures r.1 == Success <==> PartyTo(db.connections, connectionId, actor)
    ensures r.1 == Success || r.1 == ConnectionNotFound
    ensures r.1 != Success ==> r.0 == db
  {
    if PartyTo(db.connections, connectionId, actor) then
      var other := OtherParty(db.connections[connectionId], actor);
      (db.(connections := db.connections - {connectionId},
           requests := WithoutRequestsBetween(db.requests, actor, other)),
       Success)
    else (db, ConnectionNotFound)
  }

  // ---------------------------------------------------------------------------
  // How connectedness changes when a row is added or deleted

  /** Connectedness depends only on the unordered pair. */
  lemma {:induction false} ConnectedDependsOnPairOnly(connections: Connections, x: UserId, y: UserId, a: UserId, b: UserId)
    ensures SamePair(x, y, a, b) ==> (Connected(connections, x, y) <==> Connected(connections, a, b))
  {
    if SamePair(x, y, a, b) {
      forall k | k in connections ensures ConnectionBetween(connections[k], x, y) == ConnectionBetween(connections[k], a, b) {
      }
    }
  }

  lemma {:induction false} ConnectedAfterInsert(connections: Connections, n: nat, c: Connection, a: UserId, b: UserId)
    requires n !in connections
    ensures Connected(connections[n := c], a, b) <==> Connected(connections, a, b) || ConnectionBetween(c, a, b)
  {
    var after := connections[n := c];
    if Connected(connections, a, b) {
      var k :| k in connections && ConnectionBetween(connections[k], a, b);
      assert k in after && after[k] == connections[k];
    }
    if ConnectionBetween(c, a, b) {
      assert n in after && after[n] == c;
    }
    if Connected(after, a, b) {
      var k :| k in after && ConnectionBetween(after[k], a, b);
      if k != n {
        assert k in connections;
      }
    }
  }

  lemma {:induction false} ConnectedAfterDelete(connections: Connections, j: nat, a: UserId, b: UserId)
    requires j in connections && AtMostOneConnectionPerPair(connections)
    ensures Connected(connections - {j}, a, b) <==> Connected(connections, a, b) && !ConnectionBetween(connections[j], a, b)
  {
    var after := connections - {j};
    if Connected(after, a, b) {
      var k :| k in after && ConnectionBetween(after[k], a, b);
      assert k in connections && k != j;
      if ConnectionBetween(connections[j], a, b) {
        assert ConnectionBetween(connections[k], connections[j].user1, connections[j].user2);
        assert false;
      }
    }
    if Connected(connections, a, b) && !ConnectionBetween(connections[j], a, b) {
      var k :| k in connections && ConnectionBetween(connections[k], a, b);
      assert k != j && k in after;
    }
  }

  // ---------------------------------------------------------------------------
  // Send keeps the invariant

  lemma {:induction false} SendKeepsOneRequestPerPair(requests: Requests, a: UserId, b: UserId, n: nat, request: ConnectionRequest)
    requires AtMostOneRequestPerPair(requests) && n !in requests
    requires request.sender == a && request.receiver == b
    ensures AtMostOneRequestPerPair(WithoutRequestsBetween(requests, a, b)[n := request])
  {
    var after := WithoutRequestsBetween(requests, a, b)[n := request];
    forall i, j | i in after && j in after && i != j
      ensures !RequestBetween(after[j], after[i].sender, after[i].receiver)
    {
      if i == n {
        assert !RequestBetween(requests[j], a, b);
      } else if j == n {
        assert !RequestBetween(requests[i], a, b);
      } else {
        assert after[i] == requests[i] && after[j] == requests[j];
      }
    }
  }

  lemma {:induction false} SendKeepsAcceptedIffConnected(requests: Requests, connections: Connections, a: UserId, b: UserId, n: nat, request: ConnectionRequest)
    requires AcceptedIffConnected(requests, connections) && !Connected(connections, a, b)
    requires request.sender == a && request.receiver == b && request.status == Pending
    ensures AcceptedIffConnected(WithoutRequestsBetween(requests, a, b)[n := request], connections)
  {
    var after := WithoutRequestsBetween(requests, a, b)[n := request];
    forall k | k in after
      ensures after[k].status == Accepted <==> Connected(connections, after[k].sender, after[k].receiver)
    {
      if k != n {
        assert after[k] == requests[k];
      }
    }
  }

  lemma {:induction false} SendKeepsAcceptedRequests(requests: Requests, connections: Connections, a: UserId, b: UserId, n: nat, request: ConnectionRequest)
    requires ConnectionsHaveAcceptedRequest(requests, connections) && !Connected(connections, a, b)
    requires n !in requests
    ensures ConnectionsHaveAcceptedRequest(WithoutRequestsBetween(requests, a, b)[n := request], connections)
  {
    var after := WithoutRequestsBetween(requests, a, b)[n := request];
    forall k | k in connections
      ensures HasAcceptedRequest(after, connections[k].user1, connections[k].user2)
    {
      var c := connections[k];
      var w :| w in requests && requests[w].status == Accepted && RequestBetween(requests[w], c.user1, c.user2);
      assert RequestBetween(requests[w], a, b) ==> ConnectionBetween(c, a, b);
      assert w != n && w in after && after[w] == requests[w];
    }
  }

  lemma {:induction false} SendKeepsConsistent(db: Db, actor: UserId, receiverId: UserId, rawMessage: string)
    requires Consistent(db) && actor in db.users
    ensures Consistent(Send(db, actor, receiverId, rawMessage).0)
  {
    if receiverId in db.users && !Connected(db.connections, actor, receiverId) {
      var n := db.nextRequestId;
      var request := ConnectionRequest(actor, receiverId, Pending, StoredMessage(rawMessage));
      var purged := WithoutRequestsBetween(db.requests, actor, receiverId);
      var after := db.(requests := purged[n := request], nextRequestId := n + 1);
      assert Send(db, actor, receiverId, rawMessage).0 == after;
      assert n !in db.requests;
      SendKeepsOneRequestPerPair(db.requests, actor, receiverId, n, request);
      SendKeepsAcceptedIffConnected(db.requests, db.connections, actor, receiverId, n, request);
      SendKeepsAcceptedRequests(db.requests, db.connections, actor, receiverId, n, request);
      SendKeepsRowFacts(db, n, request);
    }
  }

  lemma {:induction false} SendKeepsRowFacts(db: Db, n: nat, request: ConnectionRequest)
    requires KeysBelowCounters(db) && RowsNameUsers(db) && NoDeclinedRows(db.requests)
    requires n == db.nextRequestId && request.status != Declined
    requires request.sender in db.users && request.receiver in db.users
    ensures
      var after := db.(requests := WithoutRequestsBetween(db.requests, request.sender, request.receiver)[n := request],
                       nextRequestId := n + 1);
      KeysBelowCounters(after) && RowsNameUsers(after) && NoDeclinedRows(after.requests)
  {
  }

  // ---------------------------------------------------------------------------
  // Accept keeps the invariant

  lemma {:induction false} AcceptKeepsOneConnectionPerPair(connections: Connections, n: nat, c: Connection)
    requires AtMostOneConnectionPerPair(connections) && n !in connections
    requires !Connected(connections, c.user1, c.user2)
    ensures AtMostOneConnectionPerPair(connections[n := c])
  {
    var after := connections[n := c];
    forall i, j | i in after && j in after && i != j
      ensures !ConnectionBetween(after[j], after[i].user1, after[i].user2)
    {
      if i == n {
        assert ConnectionBetween(connections[j], c.user1, c.user2) ==> Connected(connections, c.user1, c.user2);
      } else if j == n {
        var d := connections[i];
        assert ConnectionBetween(c, d.user1, d.user2) ==> ConnectionBetween(d, c.user1, c.user2);
        assert ConnectionBetween(d, c.user1, c.user2) ==> Connected(connections, c.user1, c.user2);
      }
    }
  }

  lemma {:induction false} AcceptKeepsAcceptedIffConnected(requests: Requests, connections: Connections, i: nat, n: nat)
    requires AcceptedIffConnected(requests, connections) && AtMostOneRequestPerPair(requests)
    requires i in requests && requests[i].status == Pending && n !in connections
    ensures
      var request := requests[i];
      AcceptedIffConnected(requests[i := request.(status := Accepted)],
                           connections[n := Connection(request.sender, request.receiver)])
  {
    var request := requests[i];
    var c := Connection(request.sender, request.receiver);
    var requests' := requests[i := request.(status := Accepted)];
    var connections' := connections[n := c];
    forall k | k in requests'
      ensures requests'[k].status == Accepted <==> Connected(connections', requests'[k].sender, requests'[k].receiver)
    {
      ConnectedAfterInsert(connections, n, c, requests'[k].sender, requests'[k].receiver);
      if k != i {
        assert !RequestBetween(requests[k], request.sender, request.receiver);
      }
    }
  }

  lemma {:induction false} AcceptKeepsAcceptedRequests(requests: Requests, connections: Connections, i: nat, n: nat)
    requires ConnectionsHaveAcceptedRequest(requests, connections)
    requires i in requests && requests[i].status == Pending
    ensures
      var request := requests[i];
      ConnectionsHaveAcceptedRequest(requests[i := request.(status := Accepted)],
                                     connections[n := Connection(request.sender, request.receiver)])
  {
    var request := requests[i];
    var requests' := requests[i := request.(status := Accepted)];
    var connections' := connections[n := Connection(request.sender, request.receiver)];
    forall k | k in connections'
      ensures HasAcceptedRequest(requests', connections'[k].user1, connections'[k].user2)
    {
      if k == n {
        assert requests'[i].status == Accepted && RequestBetween(requests'[i], request.sender, request.receiver);
      } else {
        var c := connections[k];
        var w :| w in requests && requests[w].status == Accepted && RequestBetween(requests[w], c.user1, c.user2);
        assert w != i && requests'[w] == requests[w];
      }
    }
  }

  lemma {:induction false} AcceptKeepsConsistent(db: Db, actor: UserId, requestId: nat)
    requires Consistent(db)
    ensures Consistent(Accept(db, actor, requestId).0)
  {
    if IncomingPending(db.requests, requestId, actor) {
      var request := db.requests[requestId];
      var n := db.nextConnectionId;
      var c := Connection(request.sender, request.receiver);
      var after := db.(requests := db.requests[requestId := request.(status := Accepted)],
                       connections := db.connections[n := c],
                       nextConnectionId := n + 1);
      assert Accept(db, actor, requestId).0 == after;
      assert n !in db.connections;
      assert !Connected(db.connections, c.user1, c.user2);
      AcceptKeepsOneConnectionPerPair(db.connections, n, c);
      AcceptKeepsAcceptedIffConnected(db.requests, db.connections, requestId, n);
      AcceptKeepsAcceptedRequests(db.requests, db.connections, requestId, n);
      AcceptKeepsRowFacts(db, requestId);
    }
  }

  lemma {:induction false} AcceptKeepsRowFacts(db: Db, i: nat)
    requires KeysBelowCounters(db) && RowsNameUsers(db) && NoDeclinedRows(db.requests) && AtMostOneRequestPerPair(db.requests)
    requires i in db.requests
    ensures
      var request := db.requests[i];
      var n := db.nextConnectionId;
      var after := db.(requests := db.requests[i := request.(status := Accepted)],
                       connections := db.connections[n := Connection(request.sender, request.receiver)],
                       nextConnectionId := n + 1);
      KeysBelowCounters(after) && RowsNameUsers(after) && NoDeclinedRows(after.requests)
      && AtMostOneRequestPerPair(after.requests)
  {
    var requests' := db.requests[i := db.requests[i].(status := Accepted)];
    forall j, k | j in requests' && k in requests' && j != k
      ensures !RequestBetween(requests'[k], requests'[j].sender, requests'[j].receiver)
    {
      assert !RequestBetween(db.requests[k], db.requests[j].sender, db.requests[j].receiver);
    }
  }

  // ---------------------------------------------------------------------------
  // Decline and cancel keep the invariant

  /** Deleting one pending request row, as decline and cancel do, keeps the invariant. */
  lemma {:induction false} DeletePendingKeepsConsistent(db: Db, requestId: nat)
    requires Consistent(db)
    requires requestId in db.requests && db.requests[requestId].status == Pending
    ensures Consistent(db.(requests := db.requests - {requestId}))
  {
    var requests' := db.requests - {requestId};
    DeletePendingKeepsAcceptedRequests(db.requests, db.connections, requestId);
    DeleteKeepsAcceptedIffConnected(db.requests, db.connections, requestId);
    DeleteKeepsOneRequestPerPair(db.requests, requestId);
    DeleteKeepsRowFacts(db, requestId);
  }

  lemma {:induction false} DeleteKeepsRowFacts(db: Db, i: nat)
    requires KeysBelowCounters(db) && RowsNameUsers(db) && NoDeclinedRows(db.requests)
    ensures
      var after := db.(requests := db.requests - {i});
      KeysBelowCounters(after) && RowsNameUsers(after) && NoDeclinedRows(after.requests)
  {
  }

  lemma {:induction false} DeletePendingKeepsAcceptedRequests(requests: Requests, connections: Connections, i: nat)
    requires ConnectionsHaveAcceptedRequest(requests, connections)
    requires i in requests && requests[i].status == Pending
    ensures ConnectionsHaveAcceptedRequest(requests - {i}, connections)
  {
    var requests' := requests - {i};
    forall k | k in connections
      ensures HasAcceptedRequest(requests', connections[k].user1, connections[k].user2)
    {
      var c := connections[k];
      var w :| w in requests && requests[w].status == Accepted && RequestBetween(requests[w], c.user1, c.user2);
      assert w != i && w in requests' && requests'[w] == requests[w];
    }
  }

  lemma {:induction false} DeleteKeepsAcceptedIffConnected(requests: Requests, connections: Connections, i: nat)
    requires AcceptedIffConnected(requests, connections)
    ensures AcceptedIffConnected(requests - {i}, connections)
  {
    var requests' := requests - {i};
    forall k | k in requests'
      ensures requests'[k].status == Accepted <==> Connected(connections, requests'[k].sender, requests'[k].receiver)
    {
      assert requests'[k] == requests[k];
    }
  }

  lemma {:induction false} DeleteKeepsOneRequestPerPair(requests: Requests, i: nat)
    requires AtMostOneRequestPerPair(requests)
    ensures AtMostOneRequestPerPair(requests - {i})
  {
    var requests' := requests - {i};
    forall j, k | j in requests' && k in requests' && j != k
      ensures !RequestBetween(requests'[k], requests'[j].sender, requests'[j].receiver)
    {
      assert requests'[j] == requests[j] && requests'[k] == requests[k];
    }
  }

  lemma {:induction false} DeclineKeepsConsistent(db: Db, actor: UserId, requestId: nat)
    requires Consistent(db)
    ensures Consistent(Decline(db, actor, requestId).0)
  {
    if IncomingPending(db.requests, requestId, actor) {
      DeletePendingKeepsConsistent(db, requestId);
    }
  }

  lemma {:induction false} CancelKeepsConsistent(db: Db, actor: UserId, requestId: nat)
    requires Consistent(db)
    ensures Consistent(Cancel(db, actor, requestId).0)
  {
    if OutgoingPending(db.requests, requestId, actor) {
      DeletePendingKeepsConsistent(db, requestId);
    }
  }

  // ---------------------------------------------------------------------------
  // Remove keeps the invariant

  lemma {:induction false} RemoveKeepsAcceptedIffConnected(requests: Requests, connections: Connections, j: nat, a: UserId, b: UserId)
    requires AcceptedIffConnected(requests, connections) && AtMostOneConnectionPerPair(connections)
    requires j in connections && ConnectionBetween(connections[j], a, b)
    ensures AcceptedIffConnected(WithoutRequestsBetween(requests, a, b), connections - {j})
  {
    var requests' := WithoutRequestsBetween(requests, a, b);
    forall k | k in requests'
      ensures requests'[k].status == Accepted <==> Connected(connections - {j}, requests'[k].sender, requests'[k].receiver)
    {
      var r := requests[k];
      assert requests'[k] == r;
      ConnectedAfterDelete(connections, j, r.sender, r.receiver);
      assert ConnectionBetween(connections[j], r.sender, r.receiver) ==> RequestBetween(r, a, b);
    }
  }

  lemma {:induction false} RemoveKeepsAcceptedRequests(requests: Requests, connections: Connections, j: nat, a: UserId, b: UserId)
    requires ConnectionsHaveAcceptedRequest(requests, connections) && AtMostOneConnectionPerPair(connections)
    requires j in connections && ConnectionBetween(connections[j], a, b)
    ensures ConnectionsHaveAcceptedRequest(WithoutRequestsBetween(requests, a, b), connections - {j})
  {
    var requests' := WithoutRequestsBetween(requests, a, b);
    forall k | k in connections - {j}
      ensures HasAcceptedRequest(requests', connections[k].user1, connections[k].user2)
    {
      var d := connections[k];
      assert !ConnectionBetween(connections[j], d.user1, d.user2);
      var w :| w in requests && requests[w].status == Accepted && RequestBetween(requests[w], d.user1, d.user2);
      assert w in requests' && requests'[w] == requests[w];
    }
  }

  lemma {:induction false} RemoveKeepsConsistent(db: Db, actor: UserId, connectionId: nat)
    requires Consistent(db)
    ensures Consistent(Remove(db, actor, connectionId).0)
  {
    if PartyTo(db.connections, connectionId, actor) {
      var c := db.connections[connectionId];
      var other := OtherParty(c, actor);
      var requests' := WithoutRequestsBetween(db.requests, actor, other);
      var after := db.(connections := db.connections - {connectionId}, requests := requests');
      assert Remove(db, actor, connectionId).0 == after;
      assert ConnectionBetween(c, actor, other);
      RemoveKeepsAcceptedIffConnected(db.requests, db.connections, connectionId, actor, other);
      RemoveKeepsAcceptedRequests(db.requests, db.connections, connectionId, actor, other);
      RemoveKeepsRowFacts(db, connectionId, actor, other);
    }
  }

  lemma {:induction false} RemoveKeepsRowFacts(db: Db, j: nat, a: UserId, b: UserId)
    requires KeysBelowCounters(db) && RowsNameUsers(db) && NoDeclinedRows(db.requests) && AtMostOneRequestPerPair(db.requests)
    ensures
      var after := db.(connections := db.connections - {j}, requests := WithoutRequestsBetween(db.requests, a, b));
      KeysBelowCounters(after) && RowsNameUsers(after) && NoDeclinedRows(after.requests)
      && AtMostOneRequestPerPair(after.requests)
  {
    var requests' := WithoutRequestsBetween(db.requests, a, b);
    forall i, k | i in requests' && k in requests' && i != k
      ensures !RequestBetween(requests'[k], requests'[i].sender, requests'[i].receiver)
    {
      assert !RequestBetween(db.requests[k], db.requests[i].sender, db.requests[i].receiver);
    }
  }

  // ---------------------------------------------------------------------------
  // Any sequence of views

  /** One call of a view by an authenticated user. */
  datatype Action =
    | SendAction(actor: UserId, receiverId: UserId, message: string)
    | AcceptAction(actor: UserId, requestId: nat)
    | DeclineAction(actor: UserId, requestId: nat)
    | CancelAction(actor: UserId, requestId: nat)
    | RemoveAction(actor: UserId, connectionId: nat)

  function Step(db: Db, action: Action): (r: (Db, Outcome))
    ensures r.0.users == db.users
  {
    match action
    case SendAction(actor, receiverId, message) => Send(db, actor, receiverId, message)
    case AcceptAction(actor, requestId) => Accept(db, actor, requestId)
    case DeclineAction(actor, requestId) => Decline(db, actor, requestId)
    case CancelAction(actor, requestId) => Cancel(db, actor, requestId)
    case RemoveAction(actor, connectionId) => Remove(db, actor, connectionId)
  }

  /** The tables after the actions, one after the other. */
  function Run(db: Db, actions: seq<Action>): (r: Db)
    ensures r.users == db.users
    decreases |actions|
  {
    if actions == [] then db else Run(Step(db, actions[0]).0, actions[1..])
  }

  /** Whatever the views are called with, and in whatever order, the invariant holds afterwards. */
  lemma {:induction false} RunKeepsConsistent(db: Db, actions: seq<Action>)
    requires Consistent(db)
    requires forall i :: 0 <= i < |actions| ==> actions[i].actor in db.users
    ensures Consistent(Run(db, actions))
    decreases |actions|
  {
    if actions != [] {
      match actions[0] {
        case SendAction(actor, receiverId, message) => SendKeepsConsistent(db, actor, receiverId, message);
        case AcceptAction(actor, requestId) => AcceptKeepsConsistent(db, actor, requestId);
        case DeclineAction(actor, requestId) => DeclineKeepsConsistent(db, actor, requestId);
        case CancelAction(actor, requestId) => CancelKeepsConsistent(db, actor, requestId);
        case RemoveAction(actor, connectionId) => RemoveKeepsConsistent(db, actor, connectionId);
      }
      var db' := Step(db, actions[0]).0;
      assert forall i :: 0 <= i < |actions[1..]| ==> actions[1..][i] == actions[i + 1];
      RunKeepsConsistent(db', actions[1..]);
    }
  }

  // ---------------------------------------------------------------------------
  // Consequences

  /** A pending request never coexists with a connection between its two users. */
  lemma PendingMeansNotConnected(db: Db, k: nat)
    requires Consistent(db)
    requires k in db.requests && db.requests[k].status == Pending
    ensures !Connected(db.connections, db.requests[k].sender, db.requests[k].receiver)
    ensures !Connected(db.connections, db.requests[k].receiver, db.requests[k].sender)
  {
  }

  /**
   * A successful send leaves exactly one request between the two users, the
   * new pending one from the actor carrying the stored message; the rows of
   * every other pair and the connections are untouched.
   */
  lemma {:induction false} SendLeavesOneRequestForPair(db: Db, actor: UserId, receiverId: UserId, message: string)
    requires KeysBelowCounters(db)
    requires Send(db, actor, receiverId, message).1 == Success
    ensures
      var db' := Send(db, actor, receiverId, message).0;
      var n := db.nextRequestId;
      && (forall k :: k in db'.requests && RequestBetween(db'.requests[k], actor, receiverId) <==> k == n)
      && db'.requests[n] == ConnectionRequest(actor, receiverId, Pending, StoredMessage(message))
      && (forall k :: k in db.requests && !RequestBetween(db.requests[k], actor, receiverId) ==>
            k in db'.requests && db'.requests[k] == db.requests[k])
      && (forall k :: k in db'.requests && k != n ==> k in db.requests)
      && db'.connections == db.connections && db'.users == db.users
  {
    assert db.nextRequestId !in db.requests;
  }

  /**
   * A successful accept changes exactly one request row, to accepted, and adds
   * exactly one connection, under the next connection id, joining the
   * request's sender and receiver; that connection is then the only one
   * between the two, and every other row and the users are untouched.
   */
  lemma {:induction false} AcceptSuccessState(db: Db, actor: UserId, requestId: nat)
    requires KeysBelowCounters(db) && AcceptedIffConnected(db.requests, db.connections)
    requires Accept(db, actor, requestId).1 == Success
    ensures
      var db' := Accept(db, actor, requestId).0;
      var request := db.requests[requestId];
      var n := db.nextConnectionId;
      && db'.requests.Keys == db.requests.Keys
      && db'.requests[requestId] == request.(status := Accepted)
      && (forall k :: k in db.requests && k != requestId ==> db'.requests[k] == db.requests[k])
      && db'.connections.Keys == db.connections.Keys + {n}
      && db'.connections[n] == Connection(request.sender, request.receiver)
      && (forall k :: k in db.connections ==> db'.connections[k] == db.connections[k])
      && (forall k :: k in db'.connections && ConnectionBetween(db'.connections[k], request.sender, request.receiver) <==> k == n)
      && db'.users == db.users
  {
    var db' := Accept(db, actor, requestId).0;
    var request := db.requests[requestId];
    var n := db.nextConnectionId;
    assert n !in db.connections;
    assert !Connected(db.connections, request.sender, request.receiver);
  }

  /**
   * A successful decline deletes exactly the declined row, after which no
   * request joins its two users; every other row, the connections and the
   * users are untouched.
   */
  lemma {:induction false} DeclineSuccessState(db: Db, actor: UserId, requestId: nat)
    requires AtMostOneRequestPerPair(db.requests)
    requires Decline(db, actor, requestId).1 == Success
    ensures
      var db' := Decline(db, actor, requestId).0;
      var request := db.requests[requestId];
      && db'.requests.Keys == db.requests.Keys - {requestId}
      && (forall k :: k in db'.requests ==> db'.requests[k] == db.requests[k])
      && (forall k :: k in db'.requests ==> !RequestBetween(db'.requests[k], request.sender, request.receiver))
      && db'.connections == db.connections && db'.users == db.users
  {
    var db' := Decline(db, actor, requestId).0;
    var request := db.requests[requestId];
    forall k | k in db'.requests
      ensures !RequestBetween(db'.requests[k], request.sender, request.receiver)
    {
      assert k in db.requests && k != requestId;
    }
  }

  /**
   * A successful cancel deletes exactly the cancelled row, after which no
   * request joins its two users; every other row, the connections and the
   * users are untouched.
   */
  lemma {:induction false} CancelSuccessState(db: Db, actor: UserId, requestId: nat)
    requires AtMostOneRequestPerPair(db.requests)
    requires Cancel(db, actor, requestId).1 == Success
    ensures
      var db' := Cancel(db, actor, requestId).0;
      var request := db.requests[requestId];
      && db'.requests.Keys == db.requests.Keys - {requestId}
      && (forall k :: k in db'.requests ==> db'.requests[k] == db.requests[k])
      && (forall k :: k in db'.requests ==> !RequestBetween(db'.requests[k], request.sender, request.receiver))
      && db'.connections == db.connections && db'.users == db.users
  {
    var db' := Cancel(db, actor, requestId).0;
    var request := db.requests[requestId];
    forall k | k in db'.requests
      ensures !RequestBetween(db'.requests[k], request.sender, request.receiver)
    {
      assert k in db.requests && k != requestId;
    }
  }

  /**
   * A successful remove deletes exactly the removed connection and exactly the
   * request rows between the actor and the other party, after which the two
   * are no longer connected; every other row and the users are untouched.
   */
  lemma {:induction false} RemoveSuccessState(db: Db, actor: UserId, connectionId: nat)
    requires AtMostOneConnectionPerPair(db.connections)
    requires Remove(db, actor, connectionId).1 == Success
    ensures
      var db' := Remove(db, actor, connectionId).0;
      var other := OtherParty(db.connections[connectionId], actor);
      && db'.connections.Keys == db.connections.Keys - {connectionId}
      && (forall k :: k in db'.connections ==> db'.connections[k] == db.connections[k])
      && (forall k :: k in db'.requests <==> k in db.requests && !RequestBetween(db.requests[k], actor, other))
      && (forall k :: k in db'.requests ==> db'.requests[k] == db.requests[k])
      && !Connected(db'.connections, actor, other)
      && db'.users == db.users
  {
    var db' := Remove(db, actor, connectionId).0;
    var c := db.connections[connectionId];
    var other := OtherParty(c, actor);
    forall k | k in db'.connections
      ensures !ConnectionBetween(db'.connections[k], actor, other)
    {
      assert k in db.connections && k != connectionId;
      assert !ConnectionBetween(db.connections[k], c.user1, c.user2);
    }
  }

  /** Once a request is accepted, sending again between the same two users, either way, is refused. */
  lemma {:induction false} AcceptThenSendRefused(db: Db, actor: UserId, requestId: nat, message: string)
    requires Consistent(db)
    requires Accept(db, actor, requestId).1 == Success
    ensures
      var db' := Accept(db, actor, requestId).0;
      var s := db.requests[requestId].sender;
      Send(db', s, actor, message) == (db', AlreadyConnected) && Send(db', actor, s, message) == (db', AlreadyConnected)
  {
    var db' := Accept(db, actor, requestId).0;
    var request := db.requests[requestId];
    var n := db.nextConnectionId;
    assert n in db'.connections && db'.connections[n] == Connection(request.sender, actor);
    assert ConnectionBetween(db'.connections[n], request.sender, actor);
    assert ConnectionBetween(db'.connections[n], actor, request.sender);
  }

  /** After a decline, either user can send a new request and it succeeds. */
  lemma {:induction false} DeclineThenResendSucceeds(db: Db, actor: UserId, requestId: nat, message: string)
    requires Consistent(db)
    requires Decline(db, actor, requestId).1 == Success
    ensures
      var db' := Decline(db, actor, requestId).0;
      var s := db.requests[requestId].sender;
      Send(db', s, actor, message).1 == Success && Send(db', actor, s, message).1 == Success
  {
    PendingMeansNotConnected(db, requestId);
  }

  /** After a cancel, either user can send a new request and it succeeds. */
  lemma {:induction false} CancelThenResendSucceeds(db: Db, actor: UserId, requestId: nat, message: string)
    requires Consistent(db)
    requires Cancel(db, actor, requestId).1 == Success
    ensures
      var db' := Cancel(db, actor, requestId).0;
      var r := db.requests[requestId].receiver;
      Send(db', actor, r, message).1 == Success && Send(db', r, actor, message).1 == Success
  {
    PendingMeansNotConnected(db, requestId);
  }

  /** After a remove, the pair has no connection and no request left, and a new send succeeds. */
  lemma {:induction false} RemoveThenResendSucceeds(db: Db, actor: UserId, connectionId: nat, message: string)
    requires Consistent(db)
    requires Remove(db, actor, connectionId).1 == Success
    ensures
      var db' := Remove(db, actor, connectionId).0;
      var other := OtherParty(db.connections[connectionId], actor);
      && !Connected(db'.connections, actor, other)
      && (forall k :: k in db'.requests ==> !RequestBetween(db'.requests[k], actor, other))
      && Send(db', actor, other, message).1 == Success
  {
    var c := db.connections[connectionId];
    var other := OtherParty(c, actor);
    assert ConnectionBetween(c, actor, other);
    ConnectedAfterDelete(db.connections, connectionId, actor, other);
    assert other in db.users;
  }

  // ---------------------------------------------------------------------------
  // Read-only views

  /** The users the actor is connected to, as browse_businesses collects them from the Connection rows: exactly the users connected to the actor. */
  function Partners(connections: Connections, actor: UserId): (r: set<UserId>)
    ensures forall u :: u in r <==> Connected(connections, actor, u)
  {
    var r := set k | k in connections && (connections[k].user1 == actor || connections[k].user2 == actor)
                :: OtherParty(connections[k], actor);
    assert forall u :: Connected(connections, actor, u) ==> u in r by {
      forall u | Connected(connections, actor, u)
        ensures u in r
      {
        var k :| k in connections && ConnectionBetween(connections[k], actor, u);
        assert OtherParty(connections[k], actor) == u;
      }
    }
    r
  }

  /** The user at the other end of a request from actor. */
  function Counterpart(r: ConnectionRequest, actor: UserId): UserId
  {
    if r.sender == actor then r.receiver else r.sender
  }

  /**
   * The users with a pending request to or from the actor, as browse_businesses
   * collects them: exactly the users some pending request joins to the actor.
   */
  function PendingPartners(requests: Requests, actor: UserId): (r: set<UserId>)
    ensures forall u :: u in r <==>
      exists k :: k in requests && requests[k].status == Pending && RequestBetween(requests[k], actor, u)
  {
    var r := set k | k in requests && (requests[k].sender == actor || requests[k].receiver == actor)
                          && requests[k].status == Pending
                :: Counterpart(requests[k], actor);
    assert forall u :: (exists k :: k in requests && requests[k].status == Pending && RequestBetween(requests[k], actor, u)) ==> u in r by {
      forall u | exists k :: k in requests && requests[k].status == Pending && RequestBetween(requests[k], actor, u)
        ensures u in r
      {
        var k :| k in requests && requests[k].status == Pending && RequestBetween(requests[k], actor, u);
        assert Counterpart(requests[k], actor) == u;
      }
    }
    r
  }

  /**
   * The search of browse_businesses: first name, last name or company name
   * contains the query, ignoring case. The empty query matches everyone, and a
   * match needs a field at least as long as the query.
   */
  predicate MatchesQuery(account: Account, query: string): (m: bool)
    ensures query == [] ==> m
    ensures m ==> |query| <= |account.firstName| || |query| <= |account.lastName| || |query| <= |account.companyName|
  {
    assert query == [] ==> OccursAt(LowerAll(query), LowerAll(account.firstName), 0);
    || ContainsIgnoreCase(account.firstName, query)
    || ContainsIgnoreCase(account.lastName, query)
    || ContainsIgnoreCase(account.companyName, query)
  }

  /** The three lists of the connections page: the actor's connections, incoming and sent pending requests. */
  datatype ConnectionsPage = ConnectionsPage(connections: set<nat>, incoming: set<nat>, sent: set<nat>)

  /**
   * The page lists exactly what its buttons can act on: every listed
   * connection can be removed by the actor, every incoming request accepted
   * or declined, every sent request cancelled, and nothing else can.
   */
  function ConnectionsPageOf(db: Db, actor: UserId): (page: ConnectionsPage)
    ensures forall k :: k in page.connections <==> PartyTo(db.connections, k, actor)
    ensures forall k :: k in page.incoming <==> IncomingPending(db.requests, k, actor)
    ensures forall k :: k in page.sent <==> OutgoingPending(db.requests, k, actor)
    ensures forall k :: k in page.connections <==> Remove(db, actor, k).1 == Success
    ensures forall k :: k in page.incoming <==> Accept(db, actor, k).1 == Success
    ensures forall k :: k in page.incoming <==> Decline(db, actor, k).1 == Success
    ensures forall k :: k in page.sent <==> Cancel(db, actor, k).1 == Success
  {
    ConnectionsPage(
      set k | k in db.connections && (db.connections[k].user1 == actor || db.connections[k].user2 == actor),
      set k | k in db.requests && db.requests[k].receiver == actor && db.requests[k].status == Pending,
      set k | k in db.requests && db.requests[k].sender == actor && db.requests[k].status == Pending)
  }

  /**
   * In a consistent database the connections list never shows a user that
   * one of the two request lists shows: the other party of a listed
   * connection is never the counterpart of a listed pending request.
   */
  lemma {:induction false} PageListsShowDifferentUsers(db: Db, actor: UserId)
    requires Consistent(db)
    ensures var page := ConnectionsPageOf(db, actor);
      forall k, j :: k in page.connections && j in page.incoming ==>
        OtherParty(db.connections[k], actor) != Counterpart(db.requests[j], actor)
    ensures var page := ConnectionsPageOf(db, actor);
      forall k, j :: k in page.connections && j in page.sent ==>
        OtherParty(db.connections[k], actor) != Counterpart(db.requests[j], actor)
  {
    var page := ConnectionsPageOf(db, actor);
    PartnersAndPendingAreDisjoint(db, actor);
    forall k, j | k in page.connections && j in page.incoming + page.sent
      ensures OtherParty(db.connections[k], actor) != Counterpart(db.requests[j], actor)
    {
      var u := OtherParty(db.connections[k], actor);
      var v := Counterpart(db.requests[j], actor);
      assert ConnectionBetween(db.connections[k], actor, u);
      assert u in Partners(db.connections, actor);
      assert RequestBetween(db.requests[j], actor, v);
      assert v in PendingPartners(db.requests, actor);
    }
  }

  /**
   * Nobody is at once a connection of the actor and the other party of a
   * pending request with the actor: the connections list and the two request
   * lists of the connections page never show the same user.
   */
  lemma {:induction false} PartnersAndPendingAreDisjoint(db: Db, actor: UserId)
    requires Consistent(db)
    ensures Partners(db.connections, actor) !! PendingPartners(db.requests, actor)
  {
    PartnersNotPending(db.requests, db.connections, actor);
  }

  /** A pending request never joins two connected users, so no partner has one with the actor. */
  lemma {:induction false} PartnersNotPending(requests: Requests, connections: Connections, actor: UserId)
    requires AcceptedIffConnected(requests, connections)
    ensures Partners(connections, actor) !! PendingPartners(requests, actor)
  {
    forall u | u in Partners(connections, actor)
      ensures u !in PendingPartners(requests, actor)
    {
      forall k | k in requests && requests[k].status == Pending
        ensures !RequestBetween(requests[k], actor, u)
      {
        ConnectedDependsOnPairOnly(connections, requests[k].sender, requests[k].receiver, actor, u);
      }
    }
  }

  // ---------------------------------------------------------------------------
  // The tables as the views change them

  class ConnectionStore {
    var users: map<UserId, Account>
    var requests: Requests
    var connections: Connections
    var nextRequestId: nat
    var nextConnectionId: nat

    /** The tables as one value. */
    function State(): Db
      reads this
    {
      Db(users, requests, connections, nextRequestId, nextConnectionId)
    }

    ghost predicate Valid()
      reads this
    {
      Consistent(State())
    }

    constructor (users: map<UserId, Account>)
      ensures Valid() && State() == Empty(users)
    {
      this.users := users;
      requests, connections := map[], map[];
      nextRequestId, nextConnectionId := 0, 0;
    }

    method SendConnectionRequest(actor: UserId, receiverId: UserId, rawMessage: string) returns (outcome: Outcome)
      requires Valid() && actor in users
      modifies this
      ensures Valid()
      ensures (State(), outcome) == Send(old(State()), actor, receiverId, rawMessage)
    {
      ghost var before := State();
      SendKeepsConsistent(before, actor, receiverId, rawMessage);
      if receiverId !in users {
        return UserNotFound;
      }
      if Connected(connections, actor, receiverId) {
        return AlreadyConnected;
      }
      var purged := WithoutRequestsBetween(requests, actor, receiverId);
      requests := purged[nextRequestId := ConnectionRequest(actor, receiverId, Pending, StoredMessage(rawMessage))];
      nextRequestId := nextRequestId + 1;
      outcome := Success;
      assert (State(), outcome) == Send(before, actor, receiverId, rawMessage);
    }

    method AcceptConnectionRequest(actor: UserId, requestId: nat) returns (outcome: Outcome)
      requires Valid()
      modifies this
      ensures Valid()
      ensures (State(), outcome) == Accept(old(State()), actor, requestId)
    {
      AcceptKeepsConsistent(State(), actor, requestId);
      if !IncomingPending(requests, requestId, actor) {
        return RequestNotFound;
      }
      var request := requests[requestId];
      connections := connections[nextConnectionId := Connection(request.sender, request.receiver)];
      nextConnectionId := nextConnectionId + 1;
      requests := requests[requestId := request.(status := Accepted)];
      outcome := Success;
    }

    method DeclineConnectionRequest(actor: UserId, requestId: nat) returns (outcome: Outcome)
      requires Valid()
      modifies this
      ensures Valid()
      ensures (State(), outcome) == Decline(old(State()), actor, requestId)
    {
      DeclineKeepsConsistent(State(), actor, requestId);
      if !IncomingPending(requests, requestId, actor) {
        return RequestNotFound;
      }
      requests := requests - {requestId};
      outcome := Success;
    }

    method CancelConnectionRequest(actor: UserId, requestId: nat) returns (outcome: Outcome)
      requires Valid()
      modifies this
      ensures Valid()
      ensures (State(), outcome) == Cancel(old(State()), actor, requestId)
    {
      CancelKeepsConsistent(State(), actor, requestId);
      if !OutgoingPending(requests, requestId, actor) {
        return RequestNotFound;
      }
      requests := requests - {requestId};
      outcome := Success;
    }

    method RemoveConnection(actor: UserId, connectionId: nat) returns (outcome: Outcome)
      requires Valid()
      modifies this
      ensures Valid()
      ensures (State(), outcome) == Remove(old(State()), actor, connectionId)
    {
      ghost var before := State();
      RemoveKeepsConsistent(before, actor, connectionId);
      if !PartyTo(connections, connectionId, actor) {
        return ConnectionNotFound;
      }
      var other := OtherParty(connections[connectionId], actor);
      connections := connections - {connectionId};
      requests := WithoutRequestsBetween(requests, actor, other);
      outcome := Success;
      assert (State(), outcome) == Remove(before, actor, connectionId);
    }

    /**
     * browse_businesses: every user but the actor, minus the users connected
     * to the actor and those with a pending request to or from the actor,
     * filtered by the stripped search query when it is not empty.
     */
    method BrowseBusinesses(actor: UserId, rawQuery: string) returns (businesses: set<UserId>)
      ensures businesses == set u | u in users && u != actor
                                  && u !in Partners(connections, actor) && u !in PendingPartners(requests, actor)
                                  && (Strip(rawQuery, Python) == "" || MatchesQuery(users[u], Strip(rawQuery, Python)))
      ensures actor !in businesses
      ensures forall u :: u in businesses ==> u in users && !Connected(connections, actor, u)
      ensures forall u, k :: u in businesses && k in requests && RequestBetween(requests[k], actor, u) ==>
                requests[k].status != Pending
    {
      var query := Strip(rawQuery, Python);

      var connectedIds := ConnectedIds(actor);
      var pendingIds := PendingIds(actor);
      var excluded := connectedIds + pendingIds;
      businesses := set u | u in users && u != actor && u !in excluded;
      if query != "" {
        businesses := set u | u in businesses && MatchesQuery(users[u], query);
      }

    }
    /** The loop of browse_businesses over the actor's connections, collecting the other party of each. */
    method ConnectedIds(actor: UserId) returns (connectedIds: set<UserId>)
      ensures connectedIds == Partners(connections, actor)
    {
      connectedIds := {};
      var mine := set k | k in connections && (connections[k].user1 == actor || connections[k].user2 == actor);
      var todo := mine;
      while todo != {}
        invariant todo <= mine
        invariant connectedIds == set k | k in mine - todo :: OtherParty(connections[k], actor)
        decreases todo
      {
        var k :| k in todo;
        if connections[k].user1 == actor {
          connectedIds := connectedIds + {connections[k].user2};
        } else {
          connectedIds := connectedIds + {connections[k].user1};
        }
        todo := todo - {k};
      }
      assert mine - todo == mine;
    }

    /** The loop of browse_businesses over the actor's pending requests, collecting the other end of each. */
    method PendingIds(actor: UserId) returns (pendingIds: set<UserId>)
      ensures pendingIds == PendingPartners(requests, actor)
    {
      pendingIds := {};
      var pending := set k | k in requests && (requests[k].sender == actor || requests[k].receiver == actor)
                                           && requests[k].status == Pending;
      var todo := pending;
      while todo != {}
        invariant todo <= pending
        invariant pendingIds == set k | k in pending - todo :: Counterpart(requests[k], actor)
        decreases todo
      {
        var k :| k in todo;
        if requests[k].sender == actor {
          pendingIds := pendingIds + {requests[k].receiver};
        } else {
          pendingIds := pendingIds + {requests[k].sender};
        }
        todo := todo - {k};
      }
      assert pending - todo == pending;
    }
  }
}
