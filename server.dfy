/**
 * The routes server.js defines itself: register and login on the `User`
 * collection (clear passwords), its `authMiddleware`, and score submission
 * into `Games` and the user's summary fields. The leaderboard is
 * `Ranking.Leaderboard`; get-text is `Provider.GetText`.
 *
 * Submissions run one at a time here. In the service the read of the user
 * and the later `$set` are separate, unlocked steps, so two concurrent
 * submissions for one user and tier can lose an update.
 */
module Server {
  import opened Wrappers
  import opened Http
  import opened Tiers
  import opened Models
  import opened Auth

  const MissingFields := Reply(400, "Username and password are required")
  const UsernameTaken := Reply(409, "Username already taken")
  const UserCreated := Reply(201, "User created successfully")
  const BadCredentials := Reply(401, "Invalid credentials")
  const NoToken := Reply(401, "Access denied. No token.")
  const BadToken := Reply(400, "Invalid token.")
  const ScoreSaved := Reply(201, "Score saved successfully.")
  const UserMissing := Reply(404, "User not found.")

  /** `authMiddleware`: 401 without a token, 400 when `verify` rejects it, else the decoded claims. */
  function AuthMiddleware(header: Option<string>, verify: string -> Option<Claims>): (g: Gate)
    ensures BearerToken(header).None? ==> g == Denied(NoToken)
    ensures forall t :: BearerToken(header) == Some(t) && verify(t).None? ==> g == Denied(BadToken)
    ensures forall t, c :: BearerToken(header) == Some(t) && verify(t) == Some(c) ==> g == Pass(c)
  {
    match BearerToken(header)
    case None => Denied(NoToken)
    case Some(token) =>
      match verify(token)
      case None => Denied(BadToken)
      case Some(claims) => Pass(claims)
  }

  /** `POST /api/auth/register`: empty fields 400, a taken name 409, else a new user with zeroed stats. */
  method Register(db: Db, username: string, password: string) returns (reply: Reply)
    requires db.Valid()
    modifies db
    ensures db.Valid() && db.games == old(db.games)
    ensures username == "" || password == "" ==>
              reply == MissingFields && db.users == old(db.users) && db.nextId == old(db.nextId)
    ensures username != "" && password != "" && IndexOfUsername(old(db.users), username).Some? ==>
              reply == UsernameTaken && db.users == old(db.users) && db.nextId == old(db.nextId)
    ensures username != "" && password != "" && IndexOfUsername(old(db.users), username).None? ==>
              && reply == UserCreated
              && db.users == old(db.users) + [NewUser(old(db.nextId), username, password)]
              && db.nextId == old(db.nextId) + 1
  {
    if username == "" || password == "" {
      return MissingFields;
    }
    if IndexOfUsername(db.users, username).Some? {
      return UsernameTaken;
    }
    var user := NewUser(db.nextId, username, password);
    db.users := db.users + [user];
    db.nextId := db.nextId + 1;
    reply := UserCreated;
  }

  /**
   * `POST /api/auth/login`: empty fields 400; otherwise a token for the
   * stored user whose name and clear password both match, else 401.
   */
  function Login(db: Db, username: string, password: string): (r: LoginReply)
    requires db.Valid()
    reads db
    ensures username == "" || password == "" ==> r == Refused(MissingFields)
    ensures r.LoggedIn? <==>
              && username != "" && password != ""
              && exists u :: u in db.users && u.username == username && u.credential == password
    ensures r.LoggedIn? ==>
              exists u :: && u in db.users && u.username == username && u.credential == password
                          && r.claims == Claims(u.id, u.username)
    ensures r.Refused? && username != "" && password != "" ==> r == Refused(BadCredentials)
  {
    if username == "" || password == "" then Refused(MissingFields)
    else match IndexOfUsername(db.users, username)
      case None => Refused(BadCredentials)
      case Some(i) =>
        var user := db.users[i];
        assert user in db.users;
        if user.credential != password then
          assert forall u :: u in db.users && u.username == username ==> u == user by {
            forall u | u in db.users && u.username == username
              ensures u == user
            {
              var j :| 0 <= j < |db.users| && db.users[j] == u;
              UsernameLookupFindsUser(db.users, j);
            }
          }
          Refused(BadCredentials)
        else LoggedIn(Claims(user.id, user.username))
  }

  /**
   * `POST /api/game/submit-score`: the history record is inserted first,
   * unchecked; then a missing user gives 404 (the record stays), and
   * otherwise the tier named by `difficulty` gets the running-average
   * update, or nothing changes when the name is not a tier (an empty `$set`).
   */
  method SubmitScore(db: Db, user: Claims, difficulty: string, wpm: real, accuracy: real, now: int)
    returns (reply: Reply)
    requires db.Valid()
    modifies db
    ensures db.Valid() && db.nextId == old(db.nextId)
    ensures db.games == old(db.games) + [Game(user.userId, user.username, difficulty, wpm, accuracy, now)]
    ensures reply == (if IndexOfId(old(db.users), user.userId).None? then UserMissing else ScoreSaved)
    ensures db.users == ScoreUpdate(old(db.users), user.userId, ParseTier(difficulty), wpm)
  {
    db.games := db.games + [Game(user.userId, user.username, difficulty, wpm, accuracy, now)];
    var found := IndexOfId(db.users, user.userId);
    if found.None? {
      return UserMissing;
    }
    db.users := ScoreUpdate(db.users, user.userId, ParseTier(difficulty), wpm);
    reply := ScoreSaved;
  }
}
