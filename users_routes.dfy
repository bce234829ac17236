/** The administrative handlers of routes/users.js — approving an instructor,
    suspending or unsuspending a user, deleting a user with the cascade over
    the collections that refer to them — the student's quiz statistics, and
    the order in which the router's GET routes are registered. */
module UsersRoutes {
  import opened Common
  import opened Domain
  import opened ContentModel
  import opened ContentViewModel
  import opened Routing

  // ---------------------------------------------------------------- admins

  predicate IsActiveAdmin(u: User) {
    u.role == Admin && !u.isSuspended
  }

  function Admins(users: map<Id, User>): (r: set<Id>)
    ensures forall id :: id in r <==> id in users && users[id].role == Admin
  {
    set id | id in users && users[id].role == Admin
  }

  function ActiveAdmins(users: map<Id, User>): (r: set<Id>)
    ensures forall id :: id in r <==> id in users && IsActiveAdmin(users[id])
  {
    set id | id in users && IsActiveAdmin(users[id])
  }

  /** PUT /approve-instructor/:id: 403 for a non-admin, 404 unless the target
      exists and is an instructor. */
  function ApproveRefusal(users: map<Id, User>, role: Role, id: Id): (r: Option<Status>)
    ensures r.None? <==> role == Admin && id in users && users[id].role == Instructor
    ensures role != Admin ==> r == Some(Forbidden)
    ensures role == Admin && r.Some? ==> r == Some(NotFound)
  {
    if role != Admin then Some(Forbidden)
    else if id !in users || users[id].role != Instructor then Some(NotFound)
    else None
  }

  /** PUT /suspend/:id: 403 for a non-admin, 404 for no such user, 400 when the
      target is the only active admin; unsuspending is never refused. */
  function SuspendRefusal(users: map<Id, User>, role: Role, id: Id): (r: Option<Status>)
    ensures role != Admin ==> r == Some(Forbidden)
    ensures role == Admin && id !in users ==> r == Some(NotFound)
    ensures role == Admin && id in users && users[id].isSuspended ==> r.None?
    ensures role == Admin && id in users && IsActiveAdmin(users[id]) ==> (r.None? <==> |ActiveAdmins(users)| > 1)
    ensures role == Admin && id in users && users[id].role != Admin ==> r.None?
  {
    if role != Admin then Some(Forbidden)
    else if id !in users then Some(NotFound)
    else if IsActiveAdmin(users[id]) && |ActiveAdmins(users)| <= 1 then Some(BadRequest)
    else None
  }

  /** The user map after the suspension flag of `id` is flipped. */
  function Toggled(users: map<Id, User>, id: Id): (r: map<Id, User>)
    requires id in users
    ensures r.Keys == users.Keys && r[id].isSuspended == !users[id].isSuspended
    ensures r[id] == users[id].(isSuspended := !users[id].isSuspended)
    ensures forall k :: k in users && k != id ==> r[k] == users[k]
  {
    users[id := users[id].(isSuspended := !users[id].isSuspended)]
  }

  /** A suspension the guard lets through never leaves the system without an
      active admin. */
  lemma SuspendKeepsAnActiveAdmin(users: map<Id, User>, role: Role, id: Id)
    requires id in users && SuspendRefusal(users, role, id).None?
    requires ActiveAdmins(users) != {}
    ensures ActiveAdmins(Toggled(users, id)) != {}
  {
    var after := Toggled(users, id);
    if IsActiveAdmin(users[id]) {
      var others := ActiveAdmins(users) - {id};
      assert |others| >= 1;
      var other :| other in others;
      assert IsActiveAdmin(after[other]);
    } else {
      var a :| a in ActiveAdmins(users);
      assert a != id;
      assert IsActiveAdmin(after[a]);
    }
  }

  /** DELETE /:id as written: the last-admin guard counts every admin, suspended
      or not. */
  function DeleteRefusalAsWritten(users: map<Id, User>, role: Role, id: Id): (r: Option<Status>)
    ensures r.None? <==> (role == Admin && id in users
      && (users[id].role == Admin ==> |Admins(users)| > 1))
  {
    if role != Admin then Some(Forbidden)
    else if id !in users then Some(NotFound)
    else if users[id].role == Admin && |Admins(users)| <= 1 then Some(BadRequest)
    else None
  }

  /** With one active admin and one suspended admin, the guard lets the active
      admin be deleted, and no active admin remains: the suspended one cannot
      act, so nobody can unsuspend it. */
  lemma DeleteAsWrittenLosesLastActiveAdmin()
    ensures var users := map["a" := User(Admin, "a@x", "a", "", "", "", true, false, 0),
                             "b" := User(Admin, "b@x", "b", "", "", "", true, true, 0)];
      DeleteRefusalAsWritten(users, Admin, "a").None?
      && ActiveAdmins(users) == {"a"} && ActiveAdmins(users - {"a"}) == {}
  {
    var users := map["a" := User(Admin, "a@x", "a", "", "", "", true, false, 0),
                     "b" := User(Admin, "b@x", "b", "", "", "", true, true, 0)];
    assert "a" in Admins(users) && "b" in Admins(users) && "a" != "b";
    assert {"a", "b"} <= Admins(users);
    assert |{"a", "b"}| == 2;
    SubsetCardinality({"a", "b"}, Admins(users));
    assert ActiveAdmins(users) == {"a"};
  }

  lemma SubsetCardinality(a: set<Id>, b: set<Id>)
    requires a <= b
    ensures |a| <= |b|
  {
    assert b == a + (b - a);
  }

  /** DELETE /:id with the guard of the suspend route added: the only active
      admin is not deleted either. */
  function DeleteRefusal(users: map<Id, User>, role: Role, id: Id): (r: Option<Status>)
    ensures r.None? <==> (role == Admin && id in users
      && (users[id].role == Admin ==> |Admins(users)| > 1)
      && (IsActiveAdmin(users[id]) ==> |ActiveAdmins(users)| > 1))
    ensures DeleteRefusalAsWritten(users, role, id).Some? ==> r == DeleteRefusalAsWritten(users, role, id)
  {
    if DeleteRefusalAsWritten(users, role, id).Some? then DeleteRefusalAsWritten(users, role, id)
    else if IsActiveAdmin(users[id]) && |ActiveAdmins(users)| <= 1 then Some(BadRequest)
    else None
  }

  /** A deletion the corrected guard lets through never leaves the system
      without an active admin. */
  lemma DeleteKeepsAnActiveAdmin(users: map<Id, User>, role: Role, id: Id)
    requires DeleteRefusal(users, role, id).None?
    requires ActiveAdmins(users) != {}
    ensures ActiveAdmins(users - {id}) != {}
  {
    var a :| a in ActiveAdmins(users);
    if a == id {
      var others := ActiveAdmins(users) - {id};
      assert |others| >= 1;
      var other :| other in others;
      assert other in ActiveAdmins(users - {id});
    } else {
      assert a in ActiveAdmins(users - {id});
    }
  }

  // ---------------------------------------------------------------- cascade

  /** The connections that survive deleting `id`: those it is not a party to. */
  function RemainingConnections(connections: map<nat, Connection>, id: Id): (r: map<nat, Connection>)
    ensures forall k :: k in r <==> k in connections && connections[k].sender != id && connections[k].receiver != id
    ensures forall k :: k in r ==> r[k] == connections[k]
  {
    map k | k in connections && connections[k].sender != id && connections[k].receiver != id :: connections[k]
  }

  /** The quizzes an instructor owns. */
  function OwnedQuizzes(quizzes: map<Id, Quiz>, id: Id): (r: set<Id>)
    ensures forall q :: q in r <==> q in quizzes && quizzes[q].instructor == id
  {
    set q | q in quizzes && quizzes[q].instructor == id
  }

  /** The content items an instructor owns. */
  function OwnedContent(contents: map<Id, Content>, id: Id): (r: set<Id>)
    ensures forall c :: c in r <==> c in contents && contents[c].instructor == id
  {
    set c | c in contents && contents[c].instructor == id
  }

  /** What the cascade leaves of each collection, by the role of the deleted user. */
  function RemainingSubmissions(subs: seq<Submission>, quizzes: map<Id, Quiz>, id: Id, role: Role): (r: seq<Submission>)
    ensures role == Instructor ==> forall s :: s in r <==> s in subs && s.quiz !in OwnedQuizzes(quizzes, id)
    ensures role == Student ==> forall s :: s in r <==> s in subs && s.student != id
    ensures role == Admin ==> r == subs
  {
    match role
    case Instructor => Keep(subs, (s: Submission) => s.quiz !in OwnedQuizzes(quizzes, id))
    case Student => Keep(subs, (s: Submission) => s.student != id)
    case Admin => subs
  }

  function RemainingQuizzes(quizzes: map<Id, Quiz>, id: Id, role: Role): (r: map<Id, Quiz>)
    ensures forall q :: q in r <==> q in quizzes && (role == Instructor ==> quizzes[q].instructor != id)
    ensures forall q :: q in r ==> r[q] == quizzes[q]
  {
    if role == Instructor then quizzes - OwnedQuizzes(quizzes, id) else quizzes
  }

  function RemainingContent(contents: map<Id, Content>, id: Id, role: Role): (r: map<Id, Content>)
    ensures forall c :: c in r <==> c in contents && (role == Instructor ==> contents[c].instructor != id)
    ensures forall c :: c in r ==> r[c] == contents[c]
  {
    if role == Instructor then contents - OwnedContent(contents, id) else contents
  }

  function RemainingViews(views: seq<ContentView>, contents: map<Id, Content>, id: Id, role: Role): (r: seq<ContentView>)
    ensures role == Instructor ==> forall v :: v in r <==> v in views && v.content !in OwnedContent(contents, id)
    ensures role == Student ==> forall v :: v in r <==> v in views && v.student != id
    ensures role == Admin ==> r == views
  {
    match role
    case Instructor => Keep(views, (v: ContentView) => v.content !in OwnedContent(contents, id))
    case Student => Keep(views, (v: ContentView) => v.student != id)
    case Admin => views
  }

  /** Only an instructor's deletion removes quizzes or content. */
  lemma OnlyInstructorsOwn(quizzes: map<Id, Quiz>, contents: map<Id, Content>, id: Id, role: Role)
    requires role != Instructor
    ensures RemainingQuizzes(quizzes, id, role) == quizzes && RemainingContent(contents, id, role) == contents
  {
  }

  /** An admin's deletion removes no submission and no view. */
  lemma AdminsLeaveNoTrail(subs: seq<Submission>, quizzes: map<Id, Quiz>, views: seq<ContentView>, contents: map<Id, Content>, id: Id)
    ensures RemainingSubmissions(subs, quizzes, id, Admin) == subs && RemainingViews(views, contents, id, Admin) == views
  {
  }

  /** After the cascade nothing that refers to the deleted user by the paths it
      clears is left: no connection naming them, and for an instructor no quiz
      or content of theirs, no submission to those quizzes and no view of that
      content; for a student no submission or view of theirs. */
  lemma CascadeLeavesNoReference(connections: map<nat, Connection>, quizzes: map<Id, Quiz>, subs: seq<Submission>,
                                 contents: map<Id, Content>, views: seq<ContentView>, id: Id, role: Role)
    ensures forall k :: k in RemainingConnections(connections, id) ==>
      RemainingConnections(connections, id)[k].sender != id && RemainingConnections(connections, id)[k].receiver != id
    ensures role == Instructor ==> forall q :: q in RemainingQuizzes(quizzes, id, role) ==> RemainingQuizzes(quizzes, id, role)[q].instructor != id
    ensures role == Instructor ==> forall s :: s in RemainingSubmissions(subs, quizzes, id, role) ==>
      s.quiz !in quizzes || quizzes[s.quiz].instructor != id
    ensures role == Instructor ==> forall v :: v in RemainingViews(views, contents, id, role) ==>
      v.content !in contents || contents[v.content].instructor != id
    ensures role == Student ==> forall s :: s in RemainingSubmissions(subs, quizzes, id, role) ==> s.student != id
    ensures role == Student ==> forall v :: v in RemainingViews(views, contents, id, role) ==> v.student != id
  {
  }

  class UsersApi {
    var users: map<Id, User>
    var connections: map<nat, Connection>
    var quizzes: map<Id, Quiz>
    var submissions: seq<Submission>
    var contents: map<Id, Content>
    var views: seq<ContentView>

    constructor (users: map<Id, User>, connections: map<nat, Connection>, quizzes: map<Id, Quiz>,
                 submissions: seq<Submission>, contents: map<Id, Content>, views: seq<ContentView>)
      ensures this.users == users && this.connections == connections && this.quizzes == quizzes
      ensures this.submissions == submissions && this.contents == contents && this.views == views
    {
      this.users := users;
      this.connections := connections;
      this.quizzes := quizzes;
      this.submissions := submissions;
      this.contents := contents;
      this.views := views;
    }

    /** PUT /approve-instructor/:id: sets the instructor's approval flag. */
    method Approve(role: Role, id: Id) returns (r: Result<User>)
      modifies this
      ensures r.Fail? <==> ApproveRefusal(old(users), role, id).Some?
      ensures r.Fail? ==> r.status == ApproveRefusal(old(users), role, id).value && users == old(users)
      ensures r.Ok? ==> r.value == old(users)[id].(isApproved := true) && users == old(users)[id := r.value]
      ensures connections == old(connections) && quizzes == old(quizzes) && submissions == old(submissions)
      ensures contents == old(contents) && views == old(views)
    {
      var refusal := ApproveRefusal(users, role, id);
      if refusal.Some? {
        return Fail(refusal.value);
      }
      var approved := users[id].(isApproved := true);
      users := users[id := approved];
      return Ok(approved);
    }

    /** PUT /suspend/:id: flips the target's suspension flag. */
    method Suspend(role: Role, id: Id) returns (r: Result<User>)
      modifies this
      ensures r.Fail? <==> SuspendRefusal(old(users), role, id).Some?
      ensures r.Fail? ==> r.status == SuspendRefusal(old(users), role, id).value && users == old(users)
      ensures r.Ok? ==> users == Toggled(old(users), id) && r.value == users[id]
      ensures r.Ok? && ActiveAdmins(old(users)) != {} ==> ActiveAdmins(users) != {}
      ensures connections == old(connections) && quizzes == old(quizzes) && submissions == old(submissions)
      ensures contents == old(contents) && views == old(views)
    {
      var refusal := SuspendRefusal(users, role, id);
      if refusal.Some? {
        return Fail(refusal.value);
      }
      if ActiveAdmins(users) != {} {
        SuspendKeepsAnActiveAdmin(users, role, id);
      }
      users := Toggled(users, id);
      return Ok(users[id]);
    }

    /** DELETE /:id, with the corrected last-admin guard: connections first,
      then by role the instructor's submissions, quizzes, views and content or
      the student's submissions and views, then the user. */
    method Delete(role: Role, id: Id) returns (r: Result<()>)
      modifies this
      ensures r.Fail? <==> DeleteRefusal(old(users), role, id).Some?
      ensures r.Fail? ==> r.status == DeleteRefusal(old(users), role, id).value
      ensures r.Fail? ==> users == old(users) && connections == old(connections) && quizzes == old(quizzes)
      ensures r.Fail? ==> submissions == old(submissions) && contents == old(contents) && views == old(views)
      ensures r.Ok? ==> users == old(users) - {id}
      ensures r.Ok? ==> connections == RemainingConnections(old(connections), id)
      ensures r.Ok? ==> submissions == RemainingSubmissions(old(submissions), old(quizzes), id, old(users)[id].role)
      ensures r.Ok? ==> quizzes == RemainingQuizzes(old(quizzes), id, old(users)[id].role)
      ensures r.Ok? ==> views == RemainingViews(old(views), old(contents), id, old(users)[id].role)
      ensures r.Ok? ==> contents == RemainingContent(old(contents), id, old(users)[id].role)
      ensures r.Ok? && ActiveAdmins(old(users)) != {} ==> ActiveAdmins(users) != {}
    {
      var refusal := DeleteRefusal(users, role, id);
      if refusal.Some? {
        return Fail(refusal.value);
      }
      if ActiveAdmins(users) != {} {
        DeleteKeepsAnActiveAdmin(users, role, id);
      }
      Cascade(id, users[id].role);
      users := users - {id};
      return Ok(());
    }

    /** The deletions DELETE /:id performs before removing the user itself:
        the user's connections, then by the user's role the instructor's
        quizzes with their submissions and content with its views, or the
        student's submissions and views. */
    method Cascade(id: Id, target: Role)
      modifies this
      ensures users == old(users)
      ensures connections == RemainingConnections(old(connections), id)
      ensures submissions == RemainingSubmissions(old(submissions), old(quizzes), id, target)
      ensures quizzes == RemainingQuizzes(old(quizzes), id, target)
      ensures views == RemainingViews(old(views), old(contents), id, target)
      ensures contents == RemainingContent(old(contents), id, target)
    {
      connections := RemainingConnections(connections, id);
      match target {
        case Instructor =>
          submissions := RemainingSubmissions(submissions, quizzes, id, target);
          quizzes := RemainingQuizzes(quizzes, id, target);
          views := RemainingViews(views, contents, id, target);
          contents := RemainingContent(contents, id, target);
        case Student =>
          OnlyInstructorsOwn(quizzes, contents, id, target);
          submissions := RemainingSubmissions(submissions, quizzes, id, target);
          views := RemainingViews(views, contents, id, target);
        case Admin =>
          OnlyInstructorsOwn(quizzes, contents, id, target);
          AdminsLeaveNoTrail(submissions, quizzes, views, contents, id);
      }
    }
  }

  // ---------------------------------------------------------------- quiz stats

  /** The statistics GET /quiz-stats reports for a student's submissions. */
  datatype QuizStats = QuizStats(totalQuizzes: nat, completedQuizzes: nat, averageScore: real, totalTime: int)

  /** Whether a submission has a score (`s.score !== undefined`). */
  predicate Scored(s: Submission) {
    s.score.Some?
  }

  /** The defined scores, in order: one per scored submission. */
  function Scores(subs: seq<Submission>): (r: seq<int>)
    ensures |r| == CountWhere(subs, Scored) <= |subs|
    ensures forall x :: x in r <==> x in ScoredValues(subs)
  {
    if subs == [] then []
    else
      var rest := Scores(subs[1..]);
      ScoredValuesCons(subs);
      if subs[0].score.Some? then [subs[0].score.value] + rest else rest
  }

  /** The scores the submissions hold, as a set. */
  function ScoredValues(subs: seq<Submission>): set<int> {
    set s | s in subs && s.score.Some? :: s.score.value
  }

  /** A run's scores are its tail's and the head's score if it has one. */
  lemma ScoredValuesCons(subs: seq<Submission>)
    requires subs != []
    ensures ScoredValues(subs) ==
      ScoredValues(subs[1..]) + if subs[0].score.Some? then {subs[0].score.value} else {}
  {
    assert forall s :: s in subs <==> s == subs[0] || s in subs[1..];
  }

  /** Collecting scores distributes over concatenation, so every scored
      submission contributes its own score, in order. */
  lemma {:induction false} ScoresAppend(a: seq<Submission>, b: seq<Submission>)
    ensures Scores(a + b) == Scores(a) + Scores(b)
  {
    if a == [] {
      assert a + b == b;
    } else {
      assert (a + b)[0] == a[0];
      assert (a + b)[1..] == a[1..] + b;
      ScoresAppend(a[1..], b);
    }
  }

  /** A single submission contributes its score exactly when it has one. */
  lemma ScoresSingle(s: Submission)
    ensures Scores([s]) == if s.score.Some? then [s.score.value] else []
  {
    assert [s][1..] == [];
  }

  function Sum(xs: seq<int>): int {
    if xs == [] then 0 else xs[0] + Sum(xs[1..])
  }

  /** Every summand in [lo, hi] puts the sum in [|xs| * lo, |xs| * hi]. */
  lemma {:induction false} SumBounds(xs: seq<int>, lo: int, hi: int)
    requires forall x :: x in xs ==> lo <= x <= hi
    ensures |xs| * lo <= Sum(xs) <= |xs| * hi
  {
    if xs != [] {
      var tail := xs[1..];
      assert forall x :: x in tail ==> x in xs;
      SumBounds(tail, lo, hi);
      assert xs[0] in xs;
      MulSucc(|tail|, lo);
      MulSucc(|tail|, hi);
    }
  }

  lemma MulSucc(n: nat, x: int)
    ensures (n + 1) * x == x + n * x
  {
  }

  /** The sum of `timeSpent || 0` over the submissions. */
  function TotalTime(subs: seq<Submission>): int {
    if subs == [] then 0 else OrDefault(subs[0].timeSpent, 0) + TotalTime(subs[1..])
  }

  lemma {:induction false} TotalTimeAppend(a: seq<Submission>, b: seq<Submission>)
    ensures TotalTime(a + b) == TotalTime(a) + TotalTime(b)
  {
    if a != [] {
      assert (a + b)[1..] == a[1..] + b;
      TotalTimeAppend(a[1..], b);
    } else {
      assert a + b == b;
    }
  }

  lemma {:induction false} TotalTimeNonNegative(subs: seq<Submission>)
    requires forall s :: s in subs && s.timeSpent.Some? ==> s.timeSpent.value >= 0
    ensures TotalTime(subs) >= 0
  {
    if subs != [] {
      assert forall s :: s in subs[1..] ==> s in subs;
      TotalTimeNonNegative(subs[1..]);
    }
  }

  /** GET /quiz-stats over the student's submissions. */
  function Stats(subs: seq<Submission>): (r: QuizStats)
    ensures r.totalQuizzes == |subs|
    ensures r.completedQuizzes == CountWhere(subs, (s: Submission) => s.isCompleted) <= r.totalQuizzes
    ensures Scores(subs) == [] ==> r.averageScore == 0.0
    ensures Scores(subs) != [] ==> r.averageScore * |Scores(subs)| as real == Sum(Scores(subs)) as real
    ensures r.totalTime == TotalTime(subs)
  {
    QuizStats(|subs|, CountWhere(subs, (s: Submission) => s.isCompleted), Average(Scores(subs)), TotalTime(subs))
  }

  /** The mean of the scores, or 0 without any. */
  function Average(scores: seq<int>): (m: real)
    ensures scores == [] ==> m == 0.0
    ensures scores != [] ==> m * |scores| as real == Sum(scores) as real
  {
    if |scores| > 0 then Sum(scores) as real / |scores| as real else 0.0
  }

  /** The average lies between the lowest and highest possible score. */
  lemma AverageWithinScoreRange(subs: seq<Submission>, lo: int, hi: int)
    requires forall s :: s in subs && s.score.Some? ==> lo <= s.score.value <= hi
    requires Scores(subs) != []
    ensures lo as real <= Stats(subs).averageScore <= hi as real
  {
    var scores := Scores(subs);
    forall x | x in scores
      ensures lo <= x <= hi
    {
      var s :| s in subs && s.score.Some? && s.score.value == x;
    }
    SumBounds(scores, lo, hi);
    MeanBounds(Sum(scores), |scores|, lo, hi);
  }

  lemma MeanBounds(sum: int, n: nat, lo: int, hi: int)
    requires n > 0 && n * lo <= sum <= n * hi
    ensures lo as real <= sum as real / n as real <= hi as real
  {
    var m := sum as real / n as real;
    assert m * n as real == sum as real;
    assert (n * lo) as real == n as real * lo as real;
    assert (n * hi) as real == n as real * hi as real;
  }

  // ---------------------------------------------------------------- routing

  datatype UsersGet = ListUsers | ListInstructors | ListPendingInstructors | InstructorStats | ShowUser | StudentQuizStats

  /** The GET routes in the order the file registers them. */
  const UsersGetRoutesAsWritten: seq<(Pattern, UsersGet)> :=
    [(Root, ListUsers), (Literal("instructors"), ListInstructors),
     (Literal("pending-instructors"), ListPendingInstructors), (Literal("stats"), InstructorStats),
     (Param, ShowUser), (Literal("quiz-stats"), StudentQuizStats)]

  /** The same routes with "/quiz-stats" registered before "/:id". */
  const UsersGetRoutes: seq<(Pattern, UsersGet)> :=
    [(Root, ListUsers), (Literal("instructors"), ListInstructors),
     (Literal("pending-instructors"), ListPendingInstructors), (Literal("stats"), InstructorStats),
     (Literal("quiz-stats"), StudentQuizStats), (Param, ShowUser)]

  /** As registered, the student statistics are never served: "/quiz-stats" is
      taken by GET /:id, which looks the segment up as a user id. */
  lemma QuizStatsUnreachable(path: Option<string>)
    ensures Dispatch(UsersGetRoutesAsWritten, path) != Some(StudentQuizStats)
    ensures Dispatch(UsersGetRoutesAsWritten, Some("quiz-stats")) == Some(ShowUser)
  {
    ShadowedLiteral(UsersGetRoutesAsWritten, 4, 5, path);
    FirstMatching(UsersGetRoutesAsWritten, 4, Some("quiz-stats"));
  }

  /** With the literal first, "/quiz-stats" reaches its handler and every other
      path is dispatched as before. */
  lemma QuizStatsReachable(path: Option<string>)
    ensures Dispatch(UsersGetRoutes, Some("quiz-stats")) == Some(StudentQuizStats)
    ensures path != Some("quiz-stats") ==> Dispatch(UsersGetRoutes, path) == Dispatch(UsersGetRoutesAsWritten, path)
  {
    FirstMatching(UsersGetRoutes, 4, Some("quiz-stats"));
    if path != Some("quiz-stats") {
      SwapAdjacent(UsersGetRoutesAsWritten, UsersGetRoutes, 4, path);
    }
  }
}
