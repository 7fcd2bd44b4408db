/** server/controllers/authController.js: registration and login over a user
    table keyed by email, with password hashing and token signing kept
    symbolic. */
module AuthController {
  import opened Js

  type UserId = string
  type Salt = nat

  /** `bcrypt.hash(password, salt)`, kept symbolic: the constructor itself is
      the one-way hash, so `Bcrypt(p, s)` stands for the hash of `p` under salt
      `s` and is a hash value, never the string `p`. Only `Matches` looks at
      the argument it was made from. */
  datatype PasswordHash = Bcrypt(hashOf: string, salt: Salt)

  /** What `bcrypt.compare(password, hash)` eventually settles to. */
  predicate Matches(password: string, hash: PasswordHash)
  {
    hash.hashOf == password
  }

  /** A pending Promise and the value it will settle to. */
  datatype Promise<T> = Pending(settlesTo: T)

  /** JavaScript truthiness of a Promise: a Promise is an object, and every
      object is truthy, whatever it settles to. */
  predicate PromiseTruthy<T>(p: Promise<T>)
  {
    true
  }

  datatype User = User(id: UserId, username: string, email: string, password: PasswordHash)

  /** The token payload `{ id: user.id }`. */
  datatype Claims = Claims(id: UserId)

  /** A signed token, kept symbolic: payload, signing secret and lifetime. */
  datatype Token = Jwt(payload: Claims, secret: string, expiresIn: nat)

  /** `expiresIn: "1h"`, in seconds. */
  const TokenLifetime := 3600

  /** `jwt.sign(payload, secret, { expiresIn: "1h" })`, which throws when the
      secret is missing or empty. */
  function Sign(payload: Claims, secret: Text): (r: Option<Token>)
    ensures r.Some? <==> Truthy(secret)
    ensures r.Some? ==> r.value.payload == payload && r.value.secret == secret.value
    ensures r.Some? ==> r.value.expiresIn == TokenLifetime
  {
    if Truthy(secret) then Some(Jwt(payload, secret.value, TokenLifetime)) else None
  }

  datatype RegisterBody = RegisterBody(username: Text, email: Text, password: Text)
  datatype LoginBody = LoginBody(email: Text, password: Text)

  /** A JSON reply `{ msg, token? }` with its status. */
  datatype AuthResponse = AuthResponse(status: int, msg: string, token: Option<Token>)

  const MissingRegisterFields := AuthResponse(400, "Please provide all required fields", None)
  const UserExists := AuthResponse(400, "User already exists", None)
  const MissingLoginFields := AuthResponse(400, "Please provide both email and password", None)
  const InvalidCredentials := AuthResponse(400, "Invalid credentials", None)
  const ServerError := AuthResponse(500, "Server error", None)

  /** The reply once a user is known: a signed token, or the catch-all 500
      when signing throws. */
  function TokenReply(user: User, secret: Text, msg: string): (r: AuthResponse)
    ensures r.status == 200 <==> Truthy(secret)
    ensures r.status == 200 ==> r.msg == msg && r.token == Sign(Claims(user.id), secret)
    ensures r.status != 200 ==> r == ServerError
  {
    match Sign(Claims(user.id), secret)
    case None => ServerError
    case Some(token) => AuthResponse(200, msg, Some(token))
  }

  /** login as written. The comparison (authController.js line 61) is not awaited, so `isMatch`
      is a pending Promise, which is truthy: the password is never checked.
      Login only reads the table. */
  function Login(users: map<string, User>, body: LoginBody, secret: Text): (r: AuthResponse)
    ensures !Truthy(body.email) || !Truthy(body.password) ==> r == MissingLoginFields
    ensures Truthy(body.email) && Truthy(body.password) && body.email.value !in users ==> r == InvalidCredentials
    ensures Truthy(body.email) && Truthy(body.password) && body.email.value in users ==>
              r == TokenReply(users[body.email.value], secret, "Login successful")
    ensures r.token.Some? ==> body.email.Some? && body.email.value in users
                              && r.token.value.payload == Claims(users[body.email.value].id)
  {
    if !Truthy(body.email) || !Truthy(body.password) then MissingLoginFields
    else if body.email.value !in users then InvalidCredentials
    else
      var user := users[body.email.value];
      var isMatch := Pending(Matches(body.password.value, user.password));
      if !PromiseTruthy(isMatch) then InvalidCredentials
      else TokenReply(user, secret, "Login successful")
  }

  /** login as evidently intended, with the comparison awaited: a token is
      issued exactly when the password matches the stored hash. */
  function LoginAwaited(users: map<string, User>, body: LoginBody, secret: Text): (r: AuthResponse)
    ensures r.status == 200 <==>
              && Truthy(body.email) && Truthy(body.password) && body.email.value in users
              && Matches(body.password.value, users[body.email.value].password)
              && Truthy(secret)
    ensures r.token.Some? <==> r.status == 200
    ensures (Truthy(body.email) && Truthy(body.password) && body.email.value in users
             && !Matches(body.password.value, users[body.email.value].password)) ==> r == InvalidCredentials
  {
    if !Truthy(body.email) || !Truthy(body.password) then MissingLoginFields
    else if body.email.value !in users then InvalidCredentials
    else
      var user := users[body.email.value];
      if !Matches(body.password.value, user.password) then InvalidCredentials
      else TokenReply(user, secret, "Login successful")
  }

  /** Registering alice and then logging in with a wrong password: the login
      as written issues a token, the awaited comparison refuses. */
  lemma WrongPasswordAccepted()
    ensures var users := map["alice@x.com" := User("u1", "alice", "alice@x.com", Bcrypt("pw123", 10))];
            var body := LoginBody(Some("alice@x.com"), Some("wrong"));
            && Login(users, body, Some("s3cret")).status == 200
            && Login(users, body, Some("s3cret")).token.Some?
            && LoginAwaited(users, body, Some("s3cret")) == InvalidCredentials
  {
  }

  /** Registering alice through the store and then logging in: the awaited
      comparison accepts "pw123" and refuses "wrong", while the login as
      written issues a token for "wrong" too. */
  method RegisterThenLogin() returns (right: AuthResponse, wrong: AuthResponse, asWritten: AuthResponse)
    ensures right.status == 200 && right.token.Some? && right.token.value.payload == Claims("u1")
    ensures wrong == InvalidCredentials
    ensures asWritten.status == 200 && asWritten.token.Some?
  {
    var store := new UserStore();
    var registered := store.Register(RegisterBody(Some("alice"), Some("alice@x.com"), Some("pw123")),
                                     "u1", 10, Some("s3cret"));
    right := LoginAwaited(store.users, LoginBody(Some("alice@x.com"), Some("pw123")), Some("s3cret"));
    wrong := LoginAwaited(store.users, LoginBody(Some("alice@x.com"), Some("wrong")), Some("s3cret"));
    asWritten := Login(store.users, LoginBody(Some("alice@x.com"), Some("wrong")), Some("s3cret"));
  }

  /** The user table, keyed by email. */
  class UserStore {
    var users: map<string, User>

    /** Every user is filed under its own email. */
    ghost predicate Valid()
      reads this
    {
      forall email :: email in users ==> users[email].email == email
    }

    constructor ()
      ensures Valid() && users == map[]
    {
      users := map[];
    }

    /** register. `newId` is the identifier the store gives the new user and
        `salt` the result of `bcrypt.genSalt(10)`. The user is saved before
        the token is signed, so a missing secret answers 500 with the user
        already added. */
    method Register(body: RegisterBody, newId: UserId, salt: Salt, secret: Text) returns (resp: AuthResponse)
      requires Valid()
      modifies this
      ensures Valid()
      ensures !Truthy(body.username) || !Truthy(body.email) || !Truthy(body.password) ==>
                resp == MissingRegisterFields && users == old(users)
      ensures Truthy(body.username) && Truthy(body.email) && Truthy(body.password) && body.email.value in old(users) ==>
                resp == UserExists && users == old(users)
      ensures Truthy(body.username) && Truthy(body.email) && Truthy(body.password) && body.email.value !in old(users) ==>
                var user := User(newId, body.username.value, body.email.value, Bcrypt(body.password.value, salt));
                && users == old(users)[body.email.value := user]
                && |users| == |old(users)| + 1
                && resp == TokenReply(user, secret, "Registration successful")
      ensures resp.token.Some? ==> resp.token.value.payload == Claims(newId)
    {
      if !Truthy(body.username) || !Truthy(body.email) || !Truthy(body.password) {
        return MissingRegisterFields;
      }
      var email := body.email.value;
      if email in users {
        return UserExists;
      }
      var user := User(newId, body.username.value, email, Bcrypt(body.password.value, salt));
      users := users[email := user];
      resp := TokenReply(user, secret, "Registration successful");
    }
  }
}
