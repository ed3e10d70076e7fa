/** The route guard `protect` (backend/src/middleware/authMiddleware.js): the
    bearer token is read from the Authorization header, verified, and the
    user it names attached to the request before the next handler runs.
    Token verification is a parameter. */
module AuthMiddleware {
  import opened Wrappers
  import Text
  import opened UserModel

  const NoToken := "Not authorized, no token"
  const TokenFailed := "Not authorized, token failed"

  /** What `protect` does: refuse with 401 and a message, or attach the
      looked-up user (null when no record has the id) and call `next`. */
  datatype Decision = Deny(message: string) | Pass(user: Option<UserDoc>)

  /** `authorization.split(" ")[1]`: the second space-separated piece, absent
      when the header has no space. */
  function Token(header: string): (t: Option<string>)
    ensures t.Some? <==> |Text.Split(header, ' ')| >= 2
  {
    var pieces := Text.Split(header, ' ');
    if |pieces| >= 2 then Some(pieces[1]) else None
  }

  /** The decision: a missing header or one not starting with "Bearer" has no
      token; a token that is absent or fails verification, or a lookup that
      throws, fails; otherwise the user is attached, found or not. */
  function Protect(header: Option<string>, verify: string -> Option<UserId>, users: seq<UserDoc>, lookupThrows: bool): Decision {
    if header.None? || header.value == [] || !Text.StartsWith(header.value, "Bearer") then Deny(NoToken)
    else
      var token := Token(header.value);
      if token.None? || verify(token.value).None? || lookupThrows then Deny(TokenFailed)
      else Pass(FindById(users, verify(token.value).value))
  }

  /** "Bearer " followed by a token with no space yields that token. */
  lemma TokenOfBearer(t: string)
    requires ' ' !in t
    ensures Token("Bearer " + t) == Some(t)
  {
    assert "Bearer " + t == "Bearer" + [' '] + t;
    Text.SplitAround("Bearer", t, ' ');
    Text.SplitWithoutSeparator("Bearer", ' ');
    Text.SplitWithoutSeparator(t, ' ');
  }

  /** The no-token refusal is exactly the header test. */
  lemma NoTokenIff(header: Option<string>, verify: string -> Option<UserId>, users: seq<UserDoc>, lookupThrows: bool)
    ensures Protect(header, verify, users, lookupThrows) == Deny(NoToken)
            <==> header.None? || !Text.StartsWith(header.value, "Bearer")
  {
  }

  /** With "Bearer <t>", the decision is verify(t)'s: a failure or a throwing
      lookup refuses, and otherwise the record with the verified id is
      attached, without its password, or null. */
  lemma BearerDecision(t: string, verify: string -> Option<UserId>, users: seq<UserDoc>, lookupThrows: bool)
    requires ' ' !in t
    ensures var d := Protect(Some("Bearer " + t), verify, users, lookupThrows);
      && (d == Deny(TokenFailed) <==> verify(t).None? || lookupThrows)
      && (d.Pass? ==> d.user == FindById(users, verify(t).value))
      && (d.Pass? && d.user.Some? ==> d.user.value.password.None? && d.user.value.id == verify(t).value)
  {
    TokenOfBearer(t);
    assert Text.StartsWith("Bearer " + t, "Bearer");
  }

  /** The prefix test has no trailing space: "BearerX" passes it, carries no
      token, and is refused as a failed token, whatever the verifier says. */
  lemma PrefixWithoutSpace(rest: string, verify: string -> Option<UserId>, users: seq<UserDoc>, lookupThrows: bool)
    requires ' ' !in rest
    ensures Protect(Some("Bearer" + rest), verify, users, lookupThrows) == Deny(TokenFailed)
  {
    assert ' ' !in "Bearer" + rest;
    Text.SplitWithoutSeparator("Bearer" + rest, ' ');
    assert Text.StartsWith("Bearer" + rest, "Bearer");
  }

  /** A valid token for an id no record has still passes, with a null user. */
  lemma MissingUserPasses(t: string, verify: string -> Option<UserId>, users: seq<UserDoc>)
    requires ' ' !in t && verify(t).Some?
    requires forall i :: 0 <= i < |users| ==> users[i].id != verify(t).value
    ensures Protect(Some("Bearer " + t), verify, users, false) == Pass(None)
  {
    TokenOfBearer(t);
    assert Text.StartsWith("Bearer " + t, "Bearer");
  }

  /** `req.user` before and after `protect`. */
  datatype RequestUser = Unset | Attached(user: Option<UserDoc>)

  /** One request/response exchange: the request's user, the response sent
      (status and message), and how many times `next` was called. */
  class Exchange {
    var requestUser: RequestUser
    var response: Option<(nat, string)>
    var nextCalls: nat

    constructor ()
      ensures requestUser == Unset && response == None && nextCalls == 0
    {
      requestUser := Unset;
      response := None;
      nextCalls := 0;
    }
  }

  /** `protect` on one exchange: a refusal sends 401 and does not call
      `next`; a pass attaches the user and calls `next` once, sending nothing. */
  method ProtectRequest(ex: Exchange, header: Option<string>, verify: string -> Option<UserId>,
                        users: seq<UserDoc>, lookupThrows: bool)
    modifies ex
    ensures match Protect(header, verify, users, lookupThrows)
      case Deny(message) =>
        ex.response == Some((401, message)) && ex.nextCalls == old(ex.nextCalls) && ex.requestUser == old(ex.requestUser)
      case Pass(user) =>
        ex.requestUser == Attached(user) && ex.nextCalls == old(ex.nextCalls) + 1 && ex.response == old(ex.response)
  {
    if header.Some? && header.value != [] && Text.StartsWith(header.value, "Bearer") {
      var token := Token(header.value);
      var decoded := if token.Some? then verify(token.value) else None;
      if decoded.None? || lookupThrows {
        ex.response := Some((401, TokenFailed));
        return;
      }
      ex.requestUser := Attached(FindById(users, decoded.value));
      ex.nextCalls := ex.nextCalls + 1;
    } else {
      ex.response := Some((401, NoToken));
    }
  }
}
