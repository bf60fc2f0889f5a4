/**
 * The two stored record shapes (users and game history) and the database
 * holding their collections.
 */
module Models {
  import opened Wrappers
  import opened Tiers

  /**
   * A user record. `credential` is the clear password in server.js and the
   * bcrypt `passwordHash` in the mongoose model; `id` is the `_id` the store assigns.
   */
  datatype User = User(id: nat, username: string, credential: string, stats: Stats)

  /** A new user: both identity fields as given, all six counters at their default 0. */
  function NewUser(id: nat, username: string, credential: string): (u: User)
    ensures u.id == id && u.username == username && u.credential == credential
    ensures forall t :: Get(u.stats, t) == Aggregate(0, 0.0)
  {
    User(id, username, credential, NoGames)
  }

  /** One history record: who played, which difficulty string, the scores and when. */
  datatype Game = Game(userId: nat, username: string, difficulty: string, wpm: real, accuracy: real, createdAt: int)

  /**
   * Mongoose validation of a history record: `username` and `difficulty` are
   * required (an empty string fails `required`), `difficulty` must be one of
   * the enum values, and `createdAt` defaults to the current time.
   */
  function ValidateGame(userId: nat, username: string, difficulty: string, wpm: real, accuracy: real,
                        createdAt: Option<int>, now: int): (r: Option<Game>)
    ensures r.Some? <==> username != "" && ParseTier(difficulty).Some?
    ensures r.Some? ==>
              && r.value.userId == userId && r.value.username == username
              && r.value.difficulty == difficulty && r.value.wpm == wpm && r.value.accuracy == accuracy
    ensures r.Some? ==> r.value.createdAt == (if createdAt.Some? then createdAt.value else now)
  {
    if username == "" || ParseTier(difficulty).None? then None
    else Some(Game(userId, username, difficulty, wpm, accuracy, if createdAt.Some? then createdAt.value else now))
  }

  ghost predicate UniqueUsernames(users: seq<User>)
  {
    forall i, j :: 0 <= i < j < |users| ==> users[i].username != users[j].username
  }

  ghost predicate UniqueIds(users: seq<User>)
  {
    forall i, j :: 0 <= i < j < |users| ==> users[i].id != users[j].id
  }

  /** `findOne({ username })`: the first stored user with that username. */
  function IndexOfUsername(users: seq<User>, username: string): (r: Option<nat>)
    ensures r.Some? ==> r.value < |users| && users[r.value].username == username
    ensures r.Some? ==> forall j :: 0 <= j < r.value ==> users[j].username != username
    ensures r.None? ==> forall j :: 0 <= j < |users| ==> users[j].username != username
  {
    if |users| == 0 then None
    else if users[0].username == username then Some(0)
    else match IndexOfUsername(users[1..], username)
      case None => None
      case Some(i) => Some(i + 1)
  }

  /** `findOne({ _id })` / `findById`: the first stored user with that id. */
  function IndexOfId(users: seq<User>, id: nat): (r: Option<nat>)
    ensures r.Some? ==> r.value < |users| && users[r.value].id == id
    ensures r.Some? ==> forall j :: 0 <= j < r.value ==> users[j].id != id
    ensures r.None? ==> forall j :: 0 <= j < |users| ==> users[j].id != id
  {
    if |users| == 0 then None
    else if users[0].id == id then Some(0)
    else match IndexOfId(users[1..], id)
      case None => None
      case Some(i) => Some(i + 1)
  }

  /** With unique usernames, looking a stored user up by name finds that user. */
  lemma UsernameLookupFindsUser(users: seq<User>, i: nat)
    requires UniqueUsernames(users) && i < |users|
    ensures IndexOfUsername(users, users[i].username) == Some(i)
  {
  }

  /** Two user lists with the same ids position by position answer `findById` alike. */
  lemma {:induction false} IndexOfIdDependsOnIds(a: seq<User>, b: seq<User>, id: nat)
    requires |a| == |b| && forall j :: 0 <= j < |a| ==> a[j].id == b[j].id
    ensures IndexOfId(a, id) == IndexOfId(b, id)
  {
    if |a| > 0 && a[0].id != id {
      IndexOfIdDependsOnIds(a[1..], b[1..], id);
    }
  }

  /**
   * The aggregate update of a score submission (a `$set` in server.js, field
   * assignments and `save()` in gameRoutes.js): the first user with `userId`
   * gets the score added to `tier`; nothing else changes, and nothing at all
   * when the user is missing or no tier is given (an empty `$set`).
   */
  function ScoreUpdate(users: seq<User>, userId: nat, tier: Option<Tier>, wpm: real): (r: seq<User>)
    ensures |r| == |users|
    ensures forall j :: 0 <= j < |r| ==>
      r[j].id == users[j].id && r[j].username == users[j].username && r[j].credential == users[j].credential
    ensures forall j :: 0 <= j < |r| && users[j].id != userId ==> r[j] == users[j]
    ensures tier.None? || IndexOfId(users, userId).None? ==> r == users
    ensures forall i, t :: IndexOfId(users, userId) == Some(i) && tier == Some(t) ==>
      r[i].stats == Submit(users[i].stats, t, wpm)
  {
    match (IndexOfId(users, userId), tier)
    case (Some(i), Some(t)) => users[i := users[i].(stats := Submit(users[i].stats, t, wpm))]
    case _ => users
  }

  /** The user list after submitting every score of `ws`, in order, to tier `t`. */
  function SubmitAll(users: seq<User>, userId: nat, t: Tier, ws: seq<real>): seq<User>
  {
    if |ws| == 0 then users
    else ScoreUpdate(SubmitAll(users, userId, t, ws[..|ws| - 1]), userId, Some(t), ws[|ws| - 1])
  }

  /**
   * A user who has never played tier `t` and then submits `ws` there ends
   * with `|ws|` games and the mean of `ws` in that tier, the other tiers
   * unchanged.
   */
  lemma {:induction false} SubmitAllIsMean(users: seq<User>, userId: nat, t: Tier, ws: seq<real>, i: nat)
    requires IndexOfId(users, userId) == Some(i)
    requires Get(users[i].stats, t) == NoScores
    ensures |SubmitAll(users, userId, t, ws)| == |users|
    ensures IndexOfId(SubmitAll(users, userId, t, ws), userId) == Some(i)
    ensures Get(SubmitAll(users, userId, t, ws)[i].stats, t) == Replay(ws)
    ensures forall u :: u != t ==> Get(SubmitAll(users, userId, t, ws)[i].stats, u) == Get(users[i].stats, u)
    ensures Get(SubmitAll(users, userId, t, ws)[i].stats, t).gamePlayed == |ws|
    ensures |ws| > 0 ==> Get(SubmitAll(users, userId, t, ws)[i].stats, t).avgSpeed == Sum(ws) / |ws| as real
  {
    ReplayIsMean(ws);
    if |ws| > 0 {
      var prev := SubmitAll(users, userId, t, ws[..|ws| - 1]);
      SubmitAllIsMean(users, userId, t, ws[..|ws| - 1], i);
      IndexOfIdDependsOnIds(ScoreUpdate(prev, userId, Some(t), ws[|ws| - 1]), prev, userId);
    }
  }

  /** `findByIdAndDelete`: every user with that id is gone, every other user stays. */
  function RemoveUser(users: seq<User>, id: nat): (r: seq<User>)
    ensures forall u :: u in r <==> u in users && u.id != id
    ensures UniqueUsernames(users) ==> UniqueUsernames(r)
    ensures UniqueIds(users) ==> UniqueIds(r)
  {
    if |users| == 0 then []
    else
      var rest := RemoveUser(users[1..], id);
      if users[0].id == id then rest
      else
        assert forall u :: u in rest ==> u in users[1..];
        [users[0]] + rest
  }

  /** Each user other than the deleted one stays as many times as it was stored. */
  lemma {:induction false} RemoveUserCounts(users: seq<User>, id: nat)
    ensures forall u :: multiset(RemoveUser(users, id))[u] == if u.id == id then 0 else multiset(users)[u]
  {
    if |users| > 0 {
      RemoveUserCounts(users[1..], id);
      assert users == [users[0]] + users[1..];
    }
  }

  /** `Game.deleteMany({ userId })`: exactly the records of other users remain. */
  function RemoveGamesOf(games: seq<Game>, id: nat): (r: seq<Game>)
    ensures forall g :: multiset(r)[g] == if g.userId == id then 0 else multiset(games)[g]
    ensures forall g :: g in r <==> g in games && g.userId != id
    ensures |r| <= |games|
  {
    if |games| == 0 then []
    else
      var rest := RemoveGamesOf(games[1..], id);
      assert games == [games[0]] + games[1..];
      if games[0].userId == id then rest else [games[0]] + rest
  }

  /** No stored user has an empty username or an empty credential. */
  ghost predicate RequiredFields(users: seq<User>)
  {
    forall u :: u in users ==> u.username != "" && u.credential != ""
  }

  /** The database: the `User` and `Games` collections and the next `_id` to hand out. */
  class Db {
    var users: seq<User>
    var games: seq<Game>
    var nextId: nat

    /**
     * Every user has a username and a credential (the schema's `required`),
     * usernames are unique, and ids are unique and already issued.
     */
    ghost predicate Valid()
      reads this
    {
      && RequiredFields(users)
      && UniqueUsernames(users)
      && UniqueIds(users)
      && (forall u :: u in users ==> u.id < nextId)
    }

    constructor ()
      ensures Valid() && users == [] && games == [] && nextId == 0
    {
      users, games, nextId := [], [], 0;
    }
  }
}
