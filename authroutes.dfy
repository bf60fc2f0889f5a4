/**
 * routes/authRoutes.js, the mongoose-based account routes. Passwords are
 * stored as bcrypt hashes; bcrypt itself is not modelled: hashing (salt
 * included) and the hash comparison of a login are functions the caller
 * supplies.
 */
module AuthRoutes {
  import opened Wrappers
  import opened Http
  import opened Models
  import opened Auth

  const MissingFields := Reply(400, "Username and password are required.")
  const UsernameExists := Reply(400, "Username already exists.")
  const UserCreated := Reply(201, "User created successfully.")
  const SaveFailed := Reply(500, "Server error")
  const BadCredentials := Reply(400, "Invalid credentials.")
  const NoToken := Reply(401, "Access denied. No token provided.")
  const BadToken := Reply(400, "Invalid token.")

  /**
   * `POST /register`: empty fields and a taken username are both 400 and
   * change nothing; otherwise exactly one user is added, holding the hash
   * of the password and zeroed stats. A hash the `required` validator
   * rejects (empty) makes `save()` fail with a 500.
   */
  method Register(db: Db, username: string, password: string, hash: string -> string) returns (reply: Reply)
    requires db.Valid()
    modifies db
    ensures db.Valid() && db.games == old(db.games)
    ensures reply.status != 201 ==> db.users == old(db.users) && db.nextId == old(db.nextId)
    ensures username == "" || password == "" ==> reply == MissingFields
    ensures username != "" && password != "" && IndexOfUsername(old(db.users), username).Some? ==>
              reply == UsernameExists
    ensures username != "" && password != "" && IndexOfUsername(old(db.users), username).None? ==>
              reply == (if hash(password) == "" then SaveFailed else UserCreated)
    ensures reply.status == 201 ==>
              && db.users == old(db.users) + [NewUser(old(db.nextId), username, hash(password))]
              && db.nextId == old(db.nextId) + 1
  {
    if username == "" || password == "" {
      return MissingFields;
    }
    if IndexOfUsername(db.users, username).Some? {
      return UsernameExists;
    }
    var passwordHash := hash(password);
    if passwordHash == "" {
      return SaveFailed;
    }
    db.users := db.users + [NewUser(db.nextId, username, passwordHash)];
    db.nextId := db.nextId + 1;
    reply := UserCreated;
  }

  /**
   * `POST /login`: a token for the stored user with that name whose hash
   * `matches` the password; an unknown name and a wrong password get the
   * same 400 reply.
   */
  function Login(db: Db, username: string, password: string, matches: (string, string) -> bool): (r: LoginReply)
    requires db.Valid()
    reads db
    ensures r.LoggedIn? <==> exists u :: u in db.users && u.username == username && matches(password, u.credential)
    ensures r.LoggedIn? ==> exists u :: u in db.users && r.claims == Claims(u.id, u.username) && u.username == username
    ensures r.Refused? ==> r == Refused(BadCredentials)
  {
    match IndexOfUsername(db.users, username)
    case None => Refused(BadCredentials)
    case Some(i) =>
      var user := db.users[i];
      assert user in db.users;
      if !matches(password, user.credential) then
        assert forall u :: u in db.users && u.username == username ==> u == user by {
          forall u | u in db.users && u.username == username
            ensures u == user
          {
            var j :| 0 <= j < |db.users| && db.users[j] == u;
            UsernameLookupFindsUser(db.users, j);
          }
        }
        Refused(BadCredentials)
      else LoggedIn(Claims(user.id, user.username))
  }

  /** `authMiddleware`: 401 without a token, 400 when `verify` rejects it, else the decoded claims. */
  function AuthMiddleware(header: Option<string>, verify: string -> Option<Claims>): (g: Gate)
    ensures BearerToken(header).None? ==> g == Denied(NoToken)
    ensures forall t :: BearerToken(header) == Some(t) && verify(t).None? ==> g == Denied(BadToken)
    ensures forall t, c :: BearerToken(header) == Some(t) && verify(t) == Some(c) ==> g == Pass(c)
  {
    match BearerToken(header)
    case None => Denied(NoToken)
    case Some(token) =>
      match verify(token)
      case None => Denied(BadToken)
      case Some(claims) => Pass(claims)
  }
}
