/** Registration, login and the identity echo
    (backend/src/controllers/authController.js) over an abstract user
    collection. Hashing, comparison and token signing are parameters. */
module AuthController {
  import opened Wrappers
  import opened UserModel

  /** The JSON reply. `token` holds the signed claims of a login; `user` the
      public part of the record. */
  datatype Claims = Claims(id: UserId, email: string, name: string, expiresIn: string)
  datatype PublicUser = PublicUser(name: string, email: string)
  datatype Reply = Reply(status: nat, message: string, token: Option<Claims>, user: Option<PublicUser>)

  const TokenLifetime := "1h"

  function Plain(status: nat, message: string): Reply {
    Reply(status, message, None, None)
  }

  const UserExists := Plain(400, "User already exists")
  const Registered := Plain(201, "User registered successfully")
  const InvalidCredentials := Plain(400, "Invalid credentials")
  const ServerError := Plain(500, "Server error")

  datatype RegisterBody = RegisterBody(name: Option<string>, email: Option<string>, password: Option<string>)
  datatype LoginBody = LoginBody(email: Option<string>, password: Option<string>)

  /** A store call that throws (a lost connection, a duplicate key). */
  datatype Faults = Faults(lookupFails: bool, saveFails: bool)

  /** `registerUser`: an existing email is refused; otherwise the password is
      hashed (a missing one makes the hash throw) and the record saved (a
      missing name or email fails the schema). Every throw becomes 500. The
      save is `NewUser`. */
  function Register(users: seq<UserDoc>, body: RegisterBody, hash: string -> string, now: nat, f: Faults): (seq<UserDoc>, Reply) {
    if f.lookupFails then (users, ServerError)
    else if body.email.Some? && FindByEmail(users, body.email.value).Some? then (users, UserExists)
    else if body.password.None? then (users, ServerError)
    else
      var doc := NewUser(|users|, body.name, body.email, hash(body.password.value), now);
      if doc.None? || f.saveFails then (users, ServerError)
      else (users + [doc.value], Registered)
  }

  /** `loginUser`: an unknown email and a wrong password give the same
      refusal; a match signs {id, email, name} for one hour and returns the
      name and email. A compare against a missing hash throws. */
  function Login(users: seq<UserDoc>, body: LoginBody, matches: (string, string) -> bool, lookupFails: bool): Reply {
    if lookupFails then ServerError
    else
      var found := if body.email.Some? then FindByEmail(users, body.email.value) else None;
      if found.None? then InvalidCredentials
      else
        var u := users[found.value];
        if body.password.None? || u.password.None? then ServerError
        else if !matches(body.password.value, u.password.value) then InvalidCredentials
        else Reply(200, "User logged in successfully", Some(Claims(u.id, u.email, u.name, TokenLifetime)),
                   Some(PublicUser(u.name, u.email)))
  }

  /** `verifyUser`: the name and email of the user `protect` attached; a
      null user throws on the property read. */
  function VerifyUser(user: Option<UserDoc>): (r: Reply)
    ensures user.Some? ==> r.status == 200 && r.user == Some(PublicUser(user.value.name, user.value.email))
    ensures user.None? ==> r.status == 500 && r.message == "Server error"
  {
    if user.Some? then Reply(200, "", None, Some(PublicUser(user.value.name, user.value.email)))
    else ServerError
  }

  /** The store keeps unique emails and ids, and valid records, through
      every registration. */
  lemma RegisterKeepsValid(users: seq<UserDoc>, body: RegisterBody, hash: string -> string, now: nat, f: Faults)
    requires ValidUsers(users)
    requires forall i :: 0 <= i < |users| ==> users[i].id < |users|
    ensures var (after, _) := Register(users, body, hash, now, f);
      && ValidUsers(after)
      && forall i :: 0 <= i < |after| ==> after[i].id < |after|
  {
    var (after, reply) := Register(users, body, hash, now, f);
    if after != users {
      var doc := after[|users|];
      assert after == users + [doc];
      assert FindByEmail(users, doc.email).None?;
    }
  }

  /** Registration either adds exactly one record, carrying the hash and not
      the password, and answers 201, or changes nothing. */
  lemma RegisterOutcome(users: seq<UserDoc>, body: RegisterBody, hash: string -> string, now: nat, f: Faults)
    ensures var (after, reply) := Register(users, body, hash, now, f);
      && (reply == Registered <==> after != users)
      && (reply == Registered ==>
            && body.password.Some?
            && after == users + [UserDoc(|users|, body.name.value, body.email.value, DefaultAge,
                                         Some(hash(body.password.value)), now, now)])
      && (reply != Registered ==> reply in {UserExists, ServerError})
  {
  }

  /** A taken email is refused with 400 and the store left as it was. */
  lemma DuplicateEmailRefused(users: seq<UserDoc>, body: RegisterBody, hash: string -> string, now: nat, i: nat)
    requires i < |users| && body.email == Some(users[i].email)
    ensures Register(users, body, hash, now, Faults(false, false)) == (users, UserExists)
  {
    assert FindByEmail(users, users[i].email).Some?;
  }

  /** Login does not tell an unknown email from a wrong password. */
  lemma SameRefusalForBothCauses(users: seq<UserDoc>, email: string, password: string, matches: (string, string) -> bool)
    requires UniqueEmails(users)
    ensures var r := Login(users, LoginBody(Some(email), Some(password)), matches, false);
      r.status == 400 <==>
        (forall i :: 0 <= i < |users| ==> users[i].email != email)
        || exists i :: 0 <= i < |users| && users[i].email == email && users[i].password.Some?
                       && !matches(password, users[i].password.value)
    ensures var r := Login(users, LoginBody(Some(email), Some(password)), matches, false);
      r.status == 400 ==> r == InvalidCredentials
  {
    var found := FindByEmail(users, email);
    if found.Some? {
      forall i | 0 <= i < |users| && users[i].email == email
        ensures i == found.value
      {
        FindByEmailUnique(users, i);
      }
    }
  }

  /** A successful login signs exactly {id, email, name} for one hour and
      shows only the name and email. */
  lemma LoginSuccessShape(users: seq<UserDoc>, body: LoginBody, matches: (string, string) -> bool)
    ensures var r := Login(users, body, matches, false);
      r.status == 200 ==>
        && body.email.Some?
        && var i := FindByEmail(users, body.email.value).value;
        && r.token == Some(Claims(users[i].id, users[i].email, users[i].name, "1h"))
        && r.user == Some(PublicUser(users[i].name, users[i].email))
        && users[i].password.Some? && body.password.Some?
        && matches(body.password.value, users[i].password.value)
  {
  }

  /** Registering and then logging in with the same credentials succeeds,
      when the comparison accepts a password against its own hash. */
  lemma RegisterThenLogin(users: seq<UserDoc>, name: string, email: string, password: string,
                          hash: string -> string, matches: (string, string) -> bool, now: nat)
    requires ValidUsers(users)
    requires forall p :: matches(p, hash(p))
    requires Register(users, RegisterBody(Some(name), Some(email), Some(password)), hash, now, Faults(false, false)).1 == Registered
    ensures var after := Register(users, RegisterBody(Some(name), Some(email), Some(password)), hash, now, Faults(false, false)).0;
      var r := Login(after, LoginBody(Some(email), Some(password)), matches, false);
      r.status == 200 && r.token == Some(Claims(|users|, email, name, "1h")) && r.user == Some(PublicUser(name, email))
  {
    var after := Register(users, RegisterBody(Some(name), Some(email), Some(password)), hash, now, Faults(false, false)).0;
    RegisterKeepsValidUnique(users, name, email, password, hash, now);
    FindByEmailUnique(after, |users|);
  }

  lemma RegisterKeepsValidUnique(users: seq<UserDoc>, name: string, email: string, password: string, hash: string -> string, now: nat)
    requires ValidUsers(users)
    requires Register(users, RegisterBody(Some(name), Some(email), Some(password)), hash, now, Faults(false, false)).1 == Registered
    ensures var after := Register(users, RegisterBody(Some(name), Some(email), Some(password)), hash, now, Faults(false, false)).0;
      |after| == |users| + 1 && after[|users|].email == email && UniqueEmails(after)
  {
    var after := Register(users, RegisterBody(Some(name), Some(email), Some(password)), hash, now, Faults(false, false)).0;
    assert FindByEmail(users, email).None?;
    assert after == users + [after[|users|]];
  }

  /** `registerUser` as written: the record goes through the schema that
      declares no password path, so the hash never reaches the store. */
  function RegisterAsWritten(users: seq<UserDoc>, body: RegisterBody, hash: string -> string, now: nat, f: Faults): (seq<UserDoc>, Reply) {
    if f.lookupFails then (users, ServerError)
    else if body.email.Some? && FindByEmail(users, body.email.value).Some? then (users, UserExists)
    else if body.password.None? then (users, ServerError)
    else
      var doc := NewUserAsWritten(|users|, body.name, body.email, hash(body.password.value), now);
      if doc.None? || f.saveFails then (users, ServerError)
      else (users + [doc.value], Registered)
  }

  /** Under the schema as written, a user who has just registered can never
      log in: the comparison meets a missing hash and the reply is 500. */
  lemma LoginAfterRegisterAsWrittenFails(users: seq<UserDoc>, name: string, email: string, password: string,
                                          hash: string -> string, matches: (string, string) -> bool, now: nat)
    requires UniqueEmails(users)
    requires RegisterAsWritten(users, RegisterBody(Some(name), Some(email), Some(password)), hash, now, Faults(false, false)).1 == Registered
    ensures var after := RegisterAsWritten(users, RegisterBody(Some(name), Some(email), Some(password)), hash, now, Faults(false, false)).0;
      Login(after, LoginBody(Some(email), Some(password)), matches, false) == ServerError
  {
    var after := RegisterAsWritten(users, RegisterBody(Some(name), Some(email), Some(password)), hash, now, Faults(false, false)).0;
    assert FindByEmail(users, email).None?;
    assert after == users + [after[|users|]];
    assert UniqueEmails(after);
    FindByEmailUnique(after, |users|);
  }

  /** The user collection behind the handlers. */
  class UserStore {
    var users: seq<UserDoc>

    constructor ()
      ensures users == []
    {
      users := [];
    }

    /** `registerUser` against this store. */
    method RegisterUser(body: RegisterBody, hash: string -> string, now: nat, f: Faults) returns (reply: Reply)
      modifies this
      ensures (users, reply) == Register(old(users), body, hash, now, f)
    {
      if f.lookupFails {
        return ServerError;
      }
      if body.email.Some? {
        var existing := FindByEmail(users, body.email.value);
        if existing.Some? {
          return UserExists;
        }
      }
      if body.password.None? {
        return ServerError;
      }
      var hashed := hash(body.password.value);
      var doc := NewUser(|users|, body.name, body.email, hashed, now);
      if doc.None? || f.saveFails {
        return ServerError;
      }
      users := users + [doc.value];
      return Registered;
    }

    /** `loginUser` against this store; it changes nothing. */
    method LoginUser(body: LoginBody, matches: (string, string) -> bool, lookupFails: bool) returns (reply: Reply)
      ensures reply == Login(users, body, matches, lookupFails)
    {
      if lookupFails {
        return ServerError;
      }
      if body.email.None? {
        return InvalidCredentials;
      }
      var found := FindByEmail(users, body.email.value);
      if found.None? {
        return InvalidCredentials;
      }
      var user := users[found.value];
      if body.password.None? || user.password.None? {
        return ServerError;
      }
      var isMatch := matches(body.password.value, user.password.value);
      if !isMatch {
        return InvalidCredentials;
      }
      var token := Claims(user.id, user.email, user.name, TokenLifetime);
      return Reply(200, "User logged in successfully", Some(token), Some(PublicUser(user.name, user.email)));
    }
  }
}
