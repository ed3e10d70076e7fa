/** The user record (backend/src/models/User.js): a required name, a required
    and unique email, an age defaulting to 0, and creation and update
    timestamps. */
module UserModel {
  import opened Wrappers
  import JournalModel

  type UserId = JournalModel.UserId

  const DefaultAge := 0

  /** A stored user. `password` is the stored hash, absent when the save
      dropped it. */
  datatype UserDoc = UserDoc(id: UserId, name: string, email: string, age: int,
                             password: Option<string>, createdAt: nat, updatedAt: nat)

  /** A required string path rejects a missing value and the empty string. */
  predicate Required(v: Option<string>) {
    v.Some? && v.value != []
  }

  predicate SchemaValid(u: UserDoc) {
    u.name != [] && u.email != []
  }

  /** The unique index on email. */
  predicate UniqueEmails(users: seq<UserDoc>) {
    forall i, j :: 0 <= i < j < |users| ==> users[i].email != users[j].email
  }

  predicate UniqueIds(users: seq<UserDoc>) {
    forall i, j :: 0 <= i < j < |users| ==> users[i].id != users[j].id
  }

  /** A collection every stored record of which passes the schema. */
  predicate ValidUsers(users: seq<UserDoc>) {
    UniqueEmails(users) && UniqueIds(users) && forall i :: 0 <= i < |users| ==> SchemaValid(users[i])
  }

  /** `new User({name, email, password})` with the password path declared:
      the defaults applied and both timestamps set to the save time; None
      when a required path is missing. */
  function NewUser(id: UserId, name: Option<string>, email: Option<string>, hash: string, now: nat): (r: Option<UserDoc>)
    ensures r.Some? <==> Required(name) && Required(email)
    ensures r.Some? ==>
      && SchemaValid(r.value) && r.value.id == id && r.value.name == name.value
      && r.value.email == email.value && r.value.age == DefaultAge && r.value.password == Some(hash)
      && r.value.createdAt == r.value.updatedAt == now
  {
    if Required(name) && Required(email) then
      Some(UserDoc(id, name.value, email.value, DefaultAge, Some(hash), now, now))
    else None
  }

  /** The same construction under the schema as written: it declares no
      password path, so strict mode leaves the hash out of the record. */
  function NewUserAsWritten(id: UserId, name: Option<string>, email: Option<string>, hash: string, now: nat): (r: Option<UserDoc>)
    ensures r.Some? <==> Required(name) && Required(email)
    ensures r.Some? ==> r.value.password.None?
  {
    if Required(name) && Required(email) then
      Some(UserDoc(id, name.value, email.value, DefaultAge, None, now, now))
    else None
  }

  /** `User.findOne({email})`: the first record with that email. */
  function FindByEmail(users: seq<UserDoc>, email: string): (r: Option<nat>)
    ensures r.Some? ==>
      && r.value < |users| && users[r.value].email == email
      && forall i :: 0 <= i < r.value ==> users[i].email != email
    ensures r.None? ==> forall i :: 0 <= i < |users| ==> users[i].email != email
    decreases |users|
  {
    if users == [] then None
    else if users[0].email == email then Some(0)
    else
      var rest := FindByEmail(users[1..], email);
      if rest.Some? then Some(rest.value + 1) else None
  }

  /** `User.findById(id).select("-password")`: the record with that id,
      without its password. */
  function FindById(users: seq<UserDoc>, id: UserId): (r: Option<UserDoc>)
    ensures r.Some? ==>
      && r.value.password.None? && r.value.id == id
      && exists i :: 0 <= i < |users| && users[i] == r.value.(password := users[i].password)
    ensures r.None? ==> forall i :: 0 <= i < |users| ==> users[i].id != id
    decreases |users|
  {
    if users == [] then None
    else if users[0].id == id then Some(users[0].(password := None))
    else
      var rest := FindById(users[1..], id);
      if rest.Some? then
        assert exists i :: 0 <= i < |users| && users[i] == rest.value.(password := users[i].password) by {
          var k :| 0 <= k < |users[1..]| && users[1..][k] == rest.value.(password := users[1..][k].password);
          assert users[k + 1] == users[1..][k];
        }
        rest
      else None
  }

  /** With unique emails, the email names exactly one record. */
  lemma FindByEmailUnique(users: seq<UserDoc>, i: nat)
    requires UniqueEmails(users) && i < |users|
    ensures FindByEmail(users, users[i].email) == Some(i)
  {
  }
}
