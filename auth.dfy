/**
 * Sign-in with the development credentials provider: `authorize` finds the user with the given
 * email or creates one named after the email's local part, and the `jwt` and `session` callbacks
 * copy the user's id into the token and from there into the session. The user table is the
 * database's user store; the id of a new row is chosen by the database and is a parameter here.
 */
module Auth {
  import opened Domain

  /** A stored user. The store keeps emails unique (`findUnique` looks users up by email). */
  datatype UserRecord = UserRecord(id: string, email: string, name: string)

  /** The object `authorize` returns to the session machinery. */
  datatype AuthUser = AuthUser(id: string, email: string, name: string)

  /** `email.split("@")[0]`: the text before the first '@', or the whole string without one. */
  function NameFromEmail(email: string): (name: string)
    ensures |name| <= |email| && name == email[..|name|]
    ensures '@' !in name
    ensures |name| < |email| ==> email[|name|] == '@'
  {
    if email == [] || email[0] == '@' then [] else [email[0]] + NameFromEmail(email[1..])
  }

  /** The name is the local part: for `local@domain` with no '@' in `local`, it is `local`. */
  lemma {:induction false} NameIsLocalPart(local: string, domain: string)
    requires '@' !in local
    ensures NameFromEmail(local + "@" + domain) == local
  {
    var email := local + "@" + domain;
    var name := NameFromEmail(email);
    assert email[|local|] == '@';
    assert email[..|local|] == local;
  }

  /** No two stored users share an email. */
  predicate DistinctEmails(users: seq<UserRecord>) {
    forall a, b :: 0 <= a < b < |users| ==> users[a].email != users[b].email
  }

  /** `findUnique({ where: { email } })`: the position of the first stored user with that email. */
  function FindByEmail(users: seq<UserRecord>, email: string): (k: Option<nat>)
    ensures k.Some? ==> k.value < |users| && users[k.value].email == email
    ensures k.Some? ==> forall m :: 0 <= m < k.value ==> users[m].email != email
    ensures k.None? ==> forall m :: 0 <= m < |users| ==> users[m].email != email
  {
    if users == [] then None
    else if users[0].email == email then Some(0)
    else match FindByEmail(users[1..], email)
      case None => None
      case Some(k) => Some(k + 1)
  }

  function Public(r: UserRecord): AuthUser {
    AuthUser(r.id, r.email, r.name)
  }

  /** What `authorize` returns, and the store after it. */
  datatype SignInResult = SignInResult(user: Option<AuthUser>, users: seq<UserRecord>)

  /**
   * `authorize`: reject a missing or empty email, else find the user or create it. The store is
   * either left as it was or grows by the one user created, and the user returned is a stored one.
   */
  function SignIn(users: seq<UserRecord>, email: Option<string>, newId: string): (res: SignInResult)
    ensures res.users == users || (Truthy(email) && res.users == users + [UserRecord(newId, email.value, NameFromEmail(email.value))])
    ensures res.user.Some? ==> exists k :: 0 <= k < |res.users| && Public(res.users[k]) == res.user.value
  {
    if !Truthy(email) then SignInResult(None, users)
    else match FindByEmail(users, email.value)
      case Some(k) => SignInResult(Some(Public(users[k])), users)
      case None =>
        var created := UserRecord(newId, email.value, NameFromEmail(email.value));
        var grown := users + [created];
        assert grown[|users|] == created;
        SignInResult(Some(Public(created)), grown)
  }

  /** A missing or empty email is refused and the store is left as it was. */
  lemma MissingEmailRefused(users: seq<UserRecord>, email: Option<string>, newId: string)
    requires email.None? || email.value == ""
    ensures SignIn(users, email, newId) == SignInResult(None, users)
  {
  }

  /** A stored email signs in as the stored user, with its id, email and name; nothing is created. */
  lemma ExistingEmailReturnsStored(users: seq<UserRecord>, k: nat, newId: string)
    requires DistinctEmails(users) && k < |users| && users[k].email != ""
    ensures SignIn(users, Some(users[k].email), newId)
         == SignInResult(Some(AuthUser(users[k].id, users[k].email, users[k].name)), users)
  {
    var found := FindByEmail(users, users[k].email);
    assert found.Some?;
  }

  /**
   * A new email creates exactly one user, appended to the store, named after the email's local
   * part and carrying the id the database chose; that user is returned.
   */
  lemma NewEmailCreatesOne(users: seq<UserRecord>, email: string, newId: string)
    requires email != "" && forall m :: 0 <= m < |users| ==> users[m].email != email
    ensures var created := UserRecord(newId, email, NameFromEmail(email));
      SignIn(users, Some(email), newId) == SignInResult(Some(AuthUser(newId, email, created.name)), users + [created])
  {
  }

  /** Whatever `authorize` returns carries the email it was given. */
  lemma ReturnedUserHasEmail(users: seq<UserRecord>, email: Option<string>, newId: string)
    ensures SignIn(users, email, newId).user.Some? <==> Truthy(email)
    ensures SignIn(users, email, newId).user.Some? ==> SignIn(users, email, newId).user.value.email == email.value
  {
  }

  /**
   * Signing in twice with the same email gives the same user both times, whatever id the database
   * would have chosen the second time, and creates at most one user in all.
   */
  lemma SignInTwice(users: seq<UserRecord>, email: Option<string>, id1: string, id2: string)
    ensures var first := SignIn(users, email, id1);
      var second := SignIn(first.users, email, id2);
      second == SignInResult(first.user, first.users) && |users| <= |first.users| <= |users| + 1
  {
    if Truthy(email) && FindByEmail(users, email.value).None? {
      var e := email.value;
      var created := UserRecord(id1, e, NameFromEmail(e));
      var grown := users + [created];
      var again := FindByEmail(grown, e);
      assert grown[|users|].email == e;
      assert forall m :: 0 <= m < |users| ==> grown[m] == users[m];
    }
  }

  /** Sign-in keeps the store's emails unique. */
  lemma SignInKeepsEmailsDistinct(users: seq<UserRecord>, email: Option<string>, newId: string)
    requires DistinctEmails(users)
    ensures DistinctEmails(SignIn(users, email, newId).users)
  {
    if Truthy(email) && FindByEmail(users, email.value).None? {
      var after := SignIn(users, email, newId).users;
      forall a, b | 0 <= a < b < |after|
        ensures after[a].email != after[b].email
      {
        if b == |users| {
          assert after[a] == users[a];
        }
      }
    }
  }

  /** The database's user table, as `authorize` reads and grows it. */
  class UserStore {
    var users: seq<UserRecord>

    predicate Valid()
      reads this
    {
      DistinctEmails(users)
    }

    constructor ()
      ensures Valid() && users == []
    {
      users := [];
    }

    /** `authorize`: the lookup, the create when it finds nothing, and the returned object. */
    method Authorize(email: Option<string>, newId: string) returns (user: Option<AuthUser>)
      requires Valid()
      modifies this
      ensures Valid()
      ensures SignInResult(user, users) == SignIn(old(users), email, newId)
    {
      SignInKeepsEmailsDistinct(users, email, newId);
      if email.None? || email.value == "" {
        return None;
      }
      var address := email.value;
      var found := FindByEmail(users, address);
      var record;
      if found.None? {
        record := UserRecord(newId, address, NameFromEmail(address));
        users := users + [record];
      } else {
        record := users[found.value];
      }
      user := Some(AuthUser(record.id, record.email, record.name));
    }
  }

  /** The JWT; `sub` holds the user id once set. */
  class Token {
    var sub: Option<string>

    constructor (sub: Option<string>)
      ensures this.sub == sub
    {
      this.sub := sub;
    }
  }

  /** The user object of a session; the callback writes its `id`. */
  class SessionUser {
    var id: Option<string>

    constructor (id: Option<string>)
      ensures this.id == id
    {
      this.id := id;
    }
  }

  /** The session handed to the `session` callback; its user may be absent. */
  class Session {
    var user: SessionUser?

    constructor (user: SessionUser?)
      ensures this.user == user
    {
      this.user := user;
    }
  }

  /** The token's subject after the `jwt` callback: the user's id when there is one, else unchanged. */
  function JwtSub(sub: Option<string>, user: Option<AuthUser>): (next: Option<string>)
    ensures user.Some? && user.value.id != "" ==> next == Some(user.value.id)
    ensures user.None? || user.value.id == "" ==> next == sub
  {
    if user.Some? && user.value.id != "" then Some(user.value.id) else sub
  }

  /** The session user's id after the `session` callback: the token's subject when it has one. */
  function SessionId(id: Option<string>, sub: Option<string>): (next: Option<string>)
    ensures Truthy(sub) ==> next == sub
    ensures !Truthy(sub) ==> next == id
  {
    if Truthy(sub) then sub else id
  }

  /** The `jwt` callback: sets `token.sub` from the signed-in user and returns the same token. */
  method Jwt(token: Token, user: Option<AuthUser>) returns (result: Token)
    modifies token
    ensures result == token
    ensures token.sub == JwtSub(old(token.sub), user)
  {
    if user.Some? && user.value.id != "" {
      token.sub := Some(user.value.id);
    }
    result := token;
  }

  /** The `session` callback: copies `token.sub` into the session user's id and returns the session. */
  method SessionCallback(session: Session, token: Token) returns (result: Session)
    modifies session.user
    ensures result == session && session.user == old(session.user)
    ensures session.user != null ==> session.user.id == SessionId(old(session.user.id), token.sub)
  {
    var account := session.user;
    if account != null && token.sub.Some? && token.sub.value != "" {
      account.id := token.sub;
    }
    result := session;
  }

  /**
   * The id of the user that signed in reaches the session: after `authorize`, `jwt` and
   * `session`, the session user's id is the stored user's id, whatever the token and the session
   * held before. Without a user, `jwt` leaves the token alone; without a subject, `session` leaves
   * the session alone.
   */
  lemma SignedInIdReachesSession(users: seq<UserRecord>, email: Option<string>, newId: string, sub: Option<string>, id: Option<string>)
    requires Truthy(email)
    ensures var signed := SignIn(users, email, newId).user;
      && signed.Some?
      && (signed.value.id != "" ==> SessionId(id, JwtSub(sub, signed)) == Some(signed.value.id))
    ensures JwtSub(sub, None) == sub && SessionId(id, None) == id
  {
  }
}
