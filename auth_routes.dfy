/** The handlers of routes/auth.js: the username derived at registration, the
    duplicate check, and the order of the login checks. Users are numbered by
    their position in the collection, which is also the order in which a
    lookup by email finds them. Passwords are compared as stored. */
module AuthRoutes {
  import opened Common
  import opened Domain
  import opened Text

  /** The username: both names lower-cased, concatenated, all whitespace removed. */
  function Username(firstName: string, lastName: string): (r: string)
    ensures forall i :: 0 <= i < |r| ==> !IsSpace(r[i])
    ensures r == RemoveSpaces(Lower(firstName)) + RemoveSpaces(Lower(lastName))
  {
    RemoveSpacesAppend(Lower(firstName), Lower(lastName));
    RemoveSpaces(Lower(firstName) + Lower(lastName))
  }

  /** Lower-casing neither creates nor removes whitespace. */
  lemma {:induction false} RemoveSpacesLower(s: string)
    ensures RemoveSpaces(Lower(s)) == Lower(RemoveSpaces(s))
  {
    if s != [] {
      assert Lower(s)[1..] == Lower(s[1..]);
      RemoveSpacesLower(s[1..]);
      if IsSpace(s[0]) {
        assert IsSpace(Lower(s)[0]);
      } else {
        assert !IsSpace(Lower(s)[0]);
        assert RemoveSpaces(s) == [s[0]] + RemoveSpaces(s[1..]);
        LowerAppend([s[0]], RemoveSpaces(s[1..]));
      }
    }
  }

  /** The username depends only on the letters of the two names, not on their
      spacing or letter case: it is the space-free, lower-cased concatenation. */
  lemma UsernameOfNames(firstName: string, lastName: string)
    ensures Username(firstName, lastName) == Lower(RemoveSpaces(firstName + lastName))
  {
    RemoveSpacesLower(firstName);
    RemoveSpacesLower(lastName);
    RemoveSpacesAppend(firstName, lastName);
    LowerAppend(RemoveSpaces(firstName), RemoveSpaces(lastName));
  }

  /** Different people can derive the same username, and then the second
      registration is refused. */
  lemma UsernamesCollide()
    ensures Username("Jo", "Ann") == Username("Joa", "nn") == "joann"
  {
    assert Lower("Jo") == "jo" && Lower("Ann") == "ann";
    assert Lower("Joa") == "joa" && Lower("nn") == "nn";
    RemoveSpacesKeepsSpaceFree("jo");
    RemoveSpacesKeepsSpaceFree("ann");
    RemoveSpacesKeepsSpaceFree("joa");
    RemoveSpacesKeepsSpaceFree("nn");
  }

  /** The email a login looks up: the posted one lower-cased, then trimmed. */
  function LoginKey(email: string): string {
    Trim(Lower(email))
  }

  /** The fields of a registration request; the three the handler reads with
      `toLowerCase` may be missing. */
  datatype RegisterBody = RegisterBody(
    firstName: Option<string>,
    lastName: Option<string>,
    email: Option<string>,
    password: string,
    role: Role)

  /** The position of the first user satisfying the email or username query. */
  function FirstMatching(users: seq<User>, email: string, username: string): (r: Option<nat>)
    ensures r.None? <==> forall i :: 0 <= i < |users| ==> users[i].email != email && users[i].username != username
    ensures r.Some? ==> r.value < |users| && (users[r.value].email == email || users[r.value].username == username)
  {
    if users == [] then None
    else if users[0].email == email || users[0].username == username then Some(0)
    else
      var r := FirstMatching(users[1..], email, username);
      assert forall i :: 1 <= i < |users| ==> users[i] == users[1..][i - 1];
      if r.Some? then Some(r.value + 1) else None
  }

  /** POST /register: a missing name or email fails with 500; an existing user
      with the lower-cased email or the derived username fails with 400. */
  function RegisterRefusal(users: seq<User>, b: RegisterBody): (r: Option<Status>)
    ensures b.firstName.None? || b.lastName.None? || b.email.None? ==> r == Some(ServerError)
    ensures r.None? <==> (b.firstName.Some? && b.lastName.Some? && b.email.Some?
      && forall i :: 0 <= i < |users| ==>
           users[i].email != Lower(b.email.value) && users[i].username != Username(b.firstName.value, b.lastName.value))
    ensures r.Some? ==> r.value == ServerError || r.value == BadRequest
  {
    if b.firstName.None? || b.lastName.None? || b.email.None? then Some(ServerError)
    else if FirstMatching(users, Lower(b.email.value), Username(b.firstName.value, b.lastName.value)).Some? then Some(BadRequest)
    else None
  }

  /** The stored record of a registration: the email as posted, the approval
      flag and the student limit as the schema's defaults. */
  function NewUser(b: RegisterBody, approvedDefault: bool, limitDefault: int): (u: User)
    requires b.firstName.Some? && b.lastName.Some? && b.email.Some?
    ensures u.username == Username(b.firstName.value, b.lastName.value)
    ensures u.email == b.email.value && u.role == b.role && !u.isSuspended
  {
    User(b.role, b.email.value, Username(b.firstName.value, b.lastName.value),
         b.firstName.value, b.lastName.value, b.password, approvedDefault, false, limitDefault)
  }

  /** Why a login is refused, in the order the checks are made. */
  datatype LoginError = EmailRequired | PasswordRequired | UserNotFound | IncorrectPassword | AccountSuspended | NotApproved

  datatype LoginResult = LoggedIn(id: nat) | Refused(error: LoginError)

  /** The position of the first user with the given email. */
  function FindByEmail(users: seq<User>, email: string): (r: Option<nat>)
    ensures r.None? <==> forall i :: 0 <= i < |users| ==> users[i].email != email
    ensures r.Some? ==> r.value < |users| && users[r.value].email == email
    ensures r.Some? ==> forall i :: 0 <= i < r.value ==> users[i].email != email
  {
    if users == [] then None
    else if users[0].email == email then Some(0)
    else
      var r := FindByEmail(users[1..], email);
      assert forall i :: 1 <= i < |users| ==> users[i] == users[1..][i - 1];
      if r.Some? then Some(r.value + 1) else None
  }

  /** The checks made on the user found: password, suspension, approval. */
  function CredentialsRefusal(u: User, password: string): (r: Option<LoginError>)
    ensures r.None? <==> u.password == password && !u.isSuspended && (u.role == Instructor ==> u.isApproved)
    ensures r == Some(IncorrectPassword) <==> u.password != password
    ensures r == Some(AccountSuspended) <==> u.password == password && u.isSuspended
    ensures r == Some(NotApproved) <==> u.password == password && !u.isSuspended && u.role == Instructor && !u.isApproved
  {
    if u.password != password then Some(IncorrectPassword)
    else if u.isSuspended then Some(AccountSuspended)
    else if u.role == Instructor && !u.isApproved then Some(NotApproved)
    else None
  }

  /** The request carries a non-blank email and a non-empty password. */
  predicate Filled(email: Option<string>, password: Option<string>) {
    email.Some? && Trim(email.value) != "" && password.Some? && password.value != ""
  }

  /** POST /login: blank email, missing password, unknown email, then the
      checks on the user found — the first failing check decides the refusal. */
  function Login(users: seq<User>, email: Option<string>, password: Option<string>): (r: LoginResult)
    ensures r == Refused(EmailRequired) <==> email.None? || Trim(email.value) == ""
    ensures r == Refused(PasswordRequired) <==> (email.Some? && Trim(email.value) != "" && (password.None? || password.value == ""))
    ensures r == Refused(UserNotFound) <==> (Filled(email, password) && FindByEmail(users, LoginKey(email.value)).None?)
    ensures r.LoggedIn? ==> Filled(email, password) && FindByEmail(users, LoginKey(email.value)) == Some(r.id)
    ensures r.LoggedIn? ==> CredentialsRefusal(users[r.id], password.value).None?
    ensures r.Refused? && r.error in {IncorrectPassword, AccountSuspended, NotApproved} ==>
      Filled(email, password) && FindByEmail(users, LoginKey(email.value)).Some?
      && CredentialsRefusal(users[FindByEmail(users, LoginKey(email.value)).value], password.value) == Some(r.error)
  {
    if email.None? || Trim(email.value) == "" then Refused(EmailRequired)
    else if password.None? || password.value == "" then Refused(PasswordRequired)
    else
      var found := FindByEmail(users, LoginKey(email.value));
      if found.None? then Refused(UserNotFound)
      else
        var refusal := CredentialsRefusal(users[found.value], password.value);
        if refusal.Some? then Refused(refusal.value) else LoggedIn(found.value)
  }

  /** Approval is asked of instructors only: a student or admin with the right
      password and an active account logs in whatever their approval flag. */
  lemma OnlyInstructorsNeedApproval(users: seq<User>, i: nat, email: string, password: string)
    requires i < |users| && users[i].role != Instructor && !users[i].isSuspended
    requires Trim(email) != "" && password != "" && users[i].password == password
    requires FindByEmail(users, LoginKey(email)) == Some(i)
    ensures Login(users, Some(email), Some(password)) == LoggedIn(i)
  {
  }

  /** Lower-casing keeps a string free of surrounding whitespace. */
  lemma LowerKeepsTrimmed(s: string)
    requires s != [] ==> !IsSpace(s[0]) && !IsSpace(s[|s| - 1])
    ensures Trim(Lower(s)) == Lower(s)
  {
    var l := Lower(s);
    if s != [] {
      assert l[0] == LowerChar(s[0]) && l[|l| - 1] == LowerChar(s[|s| - 1]);
      LowerCharKeepsSpace(s[0]);
      LowerCharKeepsSpace(s[|s| - 1]);
    }
    TrimOfTrimmed(l);
  }

  lemma LowerCharKeepsSpace(c: char)
    ensures IsSpace(LowerChar(c)) <==> IsSpace(c)
  {
  }

  /** A registration the guard accepts, with an email already in lower case
      and without surrounding whitespace, can log in straight away with the
      same email and password, unless it is an instructor awaiting approval. */
  lemma RegisterThenLogin(users: seq<User>, b: RegisterBody, approvedDefault: bool, limitDefault: int)
    requires RegisterRefusal(users, b).None?
    requires Lower(b.email.value) == b.email.value && Trim(b.email.value) == b.email.value != ""
    requires b.password != ""
    requires b.role == Instructor ==> approvedDefault
    ensures Login(users + [NewUser(b, approvedDefault, limitDefault)], b.email, Some(b.password)) == LoggedIn(|users|)
  {
    var e := b.email.value;
    var all := users + [NewUser(b, approvedDefault, limitDefault)];
    assert LoginKey(e) == e;
    forall i | 0 <= i < |users|
      ensures all[i].email != LoginKey(e)
    {
      assert all[i] == users[i];
    }
    assert all[|users|].email == LoginKey(e);
    var found := FindByEmail(all, LoginKey(e));
    assert found == Some(|users|);
  }

  /** The stored email keeps its letter case but the login looks up the
      lower-cased one: a registration with an upper-case letter in its email
      cannot log in with that email. */
  lemma RegisteredMixedCaseNotFound(users: seq<User>, b: RegisterBody, approvedDefault: bool, limitDefault: int)
    requires RegisterRefusal(users, b).None?
    requires Lower(b.email.value) != b.email.value
    requires b.email.value != "" && !IsSpace(b.email.value[0]) && !IsSpace(b.email.value[|b.email.value| - 1])
    requires b.password != ""
    ensures Login(users + [NewUser(b, approvedDefault, limitDefault)], b.email, Some(b.password)) == Refused(UserNotFound)
  {
    var e := b.email.value;
    var all := users + [NewUser(b, approvedDefault, limitDefault)];
    assert Filled(b.email, Some(b.password)) by {
      TrimOfTrimmed(e);
    }
    assert FindByEmail(all, LoginKey(e)).None? by {
      LowerKeepsTrimmed(e);
      LowerNotStored(users, b, approvedDefault, limitDefault);
    }
  }

  /** After such a registration no stored email is the lower-cased one. */
  lemma LowerNotStored(users: seq<User>, b: RegisterBody, approvedDefault: bool, limitDefault: int)
    requires RegisterRefusal(users, b).None?
    requires Lower(b.email.value) != b.email.value
    ensures FindByEmail(users + [NewUser(b, approvedDefault, limitDefault)], Lower(b.email.value)).None?
  {
    var all := users + [NewUser(b, approvedDefault, limitDefault)];
    forall i | 0 <= i < |all|
      ensures all[i].email != Lower(b.email.value)
    {
      if i < |users| {
        assert all[i] == users[i];
      }
    }
  }

  /** No two users share a username. */
  predicate UniqueUsernames(users: seq<User>) {
    forall i, j :: 0 <= i < j < |users| ==> users[i].username != users[j].username
  }

  /** A registration the guard accepts keeps usernames unique. */
  lemma RegisterKeepsUsernamesUnique(users: seq<User>, b: RegisterBody, approvedDefault: bool, limitDefault: int)
    requires UniqueUsernames(users) && RegisterRefusal(users, b).None?
    ensures UniqueUsernames(users + [NewUser(b, approvedDefault, limitDefault)])
  {
    var u := NewUser(b, approvedDefault, limitDefault);
    assert forall i :: 0 <= i < |users| ==> users[i].username != u.username;
    AppendFreshUsername(users, u);
  }

  lemma AppendFreshUsername(users: seq<User>, u: User)
    requires UniqueUsernames(users)
    requires forall i :: 0 <= i < |users| ==> users[i].username != u.username
    ensures UniqueUsernames(users + [u])
  {
    var after := users + [u];
    forall i, j | 0 <= i < j < |after|
      ensures after[i].username != after[j].username
    {
      assert after[i] == users[i];
      if j < |users| {
        assert after[j] == users[j];
      }
    }
  }

  class AuthApi {
    var users: seq<User>
    const approvedDefault: bool
    const limitDefault: int

    predicate Valid()
      reads this
    {
      UniqueUsernames(users)
    }

    constructor (approvedDefault: bool, limitDefault: int)
      ensures users == [] && Valid()
      ensures this.approvedDefault == approvedDefault && this.limitDefault == limitDefault
    {
      users := [];
      this.approvedDefault := approvedDefault;
      this.limitDefault := limitDefault;
    }

    /** POST /register: the new user's id on success. */
    method Register(b: RegisterBody) returns (r: Result<nat>)
      requires Valid()
      modifies this
      ensures Valid()
      ensures r.Fail? <==> RegisterRefusal(old(users), b).Some?
      ensures r.Fail? ==> r.status == RegisterRefusal(old(users), b).value && users == old(users)
      ensures r.Ok? ==> r.value == |old(users)| && users == old(users) + [NewUser(b, approvedDefault, limitDefault)]
    {
      var refusal := RegisterRefusal(users, b);
      if refusal.Some? {
        return Fail(refusal.value);
      }
      RegisterKeepsUsernamesUnique(users, b, approvedDefault, limitDefault);
      users := users + [NewUser(b, approvedDefault, limitDefault)];
      return Ok(|users| - 1);
    }

    /** POST /login over the stored users. */
    function LoginHere(email: Option<string>, password: Option<string>): (r: LoginResult)
      reads this
      ensures r.LoggedIn? ==> password.Some? && r.id < |users| && users[r.id].password == password.value
    {
      Login(users, email, password)
    }
  }
}
