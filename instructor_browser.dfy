/** The instructor directory of client/src/components/common/InstructorBrowser.jsx:
    the connection status shown for each instructor, its chip, and the choice
    of action button. The current user's id, which the page reads from its
    stored token, is a parameter. */
module InstructorBrowser {
  import opened Common
  import opened Domain
  import opened ConnectionsRoutes

  /** `getConnectionStatus`: the status of the first listed connection whose
      other party, seen from `me`, is the instructor; `None` for `null`. */
  function ConnectionStatus(listing: seq<Connection>, me: Id, instructor: Id): (r: Option<ConnStatus>)
    ensures r.None? <==> forall k :: 0 <= k < |listing| ==> OtherParty(listing[k], me) != instructor
    ensures r.Some? ==> exists k :: (0 <= k < |listing| && OtherParty(listing[k], me) == instructor
      && listing[k].status == r.value
      && forall j :: 0 <= j < k ==> OtherParty(listing[j], me) != instructor)
  {
    if listing == [] then None
    else if OtherParty(listing[0], me) == instructor then Some(listing[0].status)
    else
      var r := ConnectionStatus(listing[1..], me, instructor);
      assert forall k :: 1 <= k < |listing| ==> listing[k] == listing[1..][k - 1];
      if r.Some? then
        var k :| 0 <= k < |listing[1..]| && OtherParty(listing[1..][k], me) == instructor
          && listing[1..][k].status == r.value
          && forall j :: 0 <= j < k ==> OtherParty(listing[1..][j], me) != instructor;
        assert OtherParty(listing[k + 1], me) == instructor;
        r
      else r
  }

  /** `getStatusChip`. */
  function Chip(status: Option<ConnStatus>): (r: Option<string>)
    ensures r == Some("Connected") <==> status == Some(Accepted)
    ensures r == Some("Pending") <==> status == Some(Pending)
    ensures r.None? <==> status != Some(Accepted) && status != Some(Pending)
  {
    if status == Some(Accepted) then Some("Connected")
    else if status == Some(Pending) then Some("Pending")
    else None
  }

  /** The card's button. */
  datatype Action = AlreadyConnected | RequestSent | SendRequest

  /** Disabled "Already Connected" for accepted, disabled "Request Sent" for
      pending, and an enabled "Send Request" otherwise. */
  function ActionFor(status: Option<ConnStatus>): (r: Action)
    ensures r == AlreadyConnected <==> status == Some(Accepted)
    ensures r == RequestSent <==> status == Some(Pending)
    ensures r == SendRequest <==> Chip(status).None?
  {
    if status == Some(Accepted) then AlreadyConnected
    else if status == Some(Pending) then RequestSent
    else SendRequest
  }

  predicate Enabled(a: Action) {
    a == SendRequest
  }

  /** The message the request dialog starts with. */
  function RequestMessage(firstName: Option<string>, username: string): (r: string)
    ensures firstName.Some? && firstName.value != "" ==> ("Hi " + firstName.value) <= r
    ensures firstName.None? || firstName.value == "" ==> ("Hi " + username) <= r
  {
    var name := if firstName.Some? && firstName.value != "" then firstName.value else username;
    "Hi " + name + ", I'd like to connect with you to access your quizzes and content."
  }

  /** `listing` is what GET /my-connections returns for `me`: the accepted or
      pending connections `me` is a party to. */
  ghost predicate Listed(connections: map<nat, Connection>, me: Id, listing: seq<Connection>) {
    forall c :: c in listing <==> exists k :: (k in connections && connections[k] == c
      && Party(c, me) && (c.status == Accepted || c.status == Pending))
  }

  /** A rejected request hides the instructor's connection from the listing, so
      the page offers "Send Request" again, and the server refuses that request
      because a connection already exists. */
  lemma RejectedRequestOfferedButRefused()
    ensures var users := map["s" := User(Student, "s@x", "s", "S", "T", "p", true, false, 0),
                             "i" := User(Instructor, "i@x", "i", "I", "J", "p", true, false, 10)];
      var connections := map[0 := Connection("s", "i", Rejected, "", None)];
      && Listed(connections, "s", [])
      && Enabled(ActionFor(ConnectionStatus([], "s", "i")))
      && RequestRefusal(connections, users, "s", "i") == Some(BadRequest)
  {
    var users := map["s" := User(Student, "s@x", "s", "S", "T", "p", true, false, 0),
                     "i" := User(Instructor, "i@x", "i", "I", "J", "p", true, false, 10)];
    var connections := map[0 := Connection("s", "i", Rejected, "", None)];
    assert Between(connections[0], "s", "i");
  }

  /** With rejected connections no longer blocking a request, the button is
      enabled exactly when the server would accept the request. */
  lemma SendRequestOfferedOnlyWhenAllowed(connections: map<nat, Connection>, users: map<Id, User>,
                                          me: Id, listing: seq<Connection>, instructor: Id)
    requires Listed(connections, me, listing)
    requires instructor != me && instructor in users
    ensures Enabled(ActionFor(ConnectionStatus(listing, me, instructor)))
      <==> RequestRefusalAllowingRetry(connections, users, me, instructor).None?
  {
    var status := ConnectionStatus(listing, me, instructor);
    if status.Some? {
      var k :| 0 <= k < |listing| && OtherParty(listing[k], me) == instructor && listing[k].status == status.value;
      var c := listing[k];
      assert c in listing;
      var n :| n in connections && connections[n] == c && Party(c, me) && (c.status == Accepted || c.status == Pending);
      assert Between(connections[n], me, instructor);
    }
  }
}
