/**
 * routes/gameRoutes.js, the mongoose-based game routes: get-text with a
 * single model call, score submission through the validated `Game` model,
 * and account deletion. Its leaderboard is `Ranking.Leaderboard`.
 */
module GameRoutes {
  import opened Wrappers
  import opened Http
  import opened Tiers
  import opened Models
  import opened Auth
  import Ranking
  import Provider

  /** `text.replace(/\n/g, ' ')`: every line feed becomes a space, nothing else moves. */
  function ReplaceNewlines(s: string): (r: string)
    ensures |r| == |s|
    ensures forall i :: 0 <= i < |s| ==> r[i] == (if s[i] == '\n' then ' ' else s[i])
  {
    if |s| == 0 then ""
    else [if s[0] == '\n' then ' ' else s[0]] + ReplaceNewlines(s[1..])
  }

  /** The answer of get-text: 400 for an unknown difficulty, the text, or 500 when the model call fails. */
  datatype TextReply = InvalidDifficulty | Text(text: string) | LlmError

  /**
   * `GET /get-text/:difficulty`: an unknown difficulty is refused whatever
   * the model would answer (it is never called); a successful answer comes
   * back on one line; a failed one is a 500.
   */
  function GetText(difficulty: string, answer: Provider.Outcome): (r: TextReply)
    ensures ParseTier(difficulty).None? ==> r == InvalidDifficulty
    ensures ParseTier(difficulty).Some? && answer.Failed? ==> r == LlmError
    ensures ParseTier(difficulty).Some? && answer.Answered? ==>
              && r.Text? && '\n' !in r.text && |r.text| == |answer.text|
              && (forall i :: 0 <= i < |answer.text| && answer.text[i] != '\n' ==> r.text[i] == answer.text[i])
              && (forall i :: 0 <= i < |answer.text| && answer.text[i] == '\n' ==> r.text[i] == ' ')
  {
    if ParseTier(difficulty).None? then InvalidDifficulty
    else match answer
      case Answered(text) => Text(ReplaceNewlines(text))
      case Failed(_) => LlmError
  }

  /** The answer of submit-score: 201 with `newAverage`, 404, or 500 when the history record fails validation. */
  datatype SubmitReply = Saved(newAverage: real) | UserNotFound | InvalidGame

  /**
   * `POST /submit-score`: the `Game` record must validate (known difficulty,
   * non-empty username) or nothing is stored; it is saved before the user is
   * looked up, so a missing user leaves it behind with a 404. Otherwise the
   * submitted tier gets the running-average update and the reply's
   * `newAverage` is the user's `Normal` average whatever tier was played.
   */
  method SubmitScore(db: Db, user: Claims, difficulty: string, wpm: real, accuracy: real, now: int)
    returns (reply: SubmitReply)
    requires db.Valid()
    modifies db
    ensures db.Valid() && db.nextId == old(db.nextId)
    ensures reply.InvalidGame? <==> ValidateGame(user.userId, user.username, difficulty, wpm, accuracy, None, now).None?
    ensures reply.InvalidGame? ==> db.games == old(db.games) && db.users == old(db.users)
    ensures !reply.InvalidGame? ==>
              db.games == old(db.games) + [Game(user.userId, user.username, difficulty, wpm, accuracy, now)]
    ensures reply.UserNotFound? <==> !reply.InvalidGame? && IndexOfId(old(db.users), user.userId).None?
    ensures db.users == (if reply.InvalidGame? then old(db.users)
                         else ScoreUpdate(old(db.users), user.userId, ParseTier(difficulty), wpm))
    ensures reply.Saved? ==>
              && IndexOfId(old(db.users), user.userId).Some?
              && var i := IndexOfId(old(db.users), user.userId).value;
              && reply.newAverage == Get(db.users[i].stats, Normal).avgSpeed
              && (difficulty != "Normal" ==> reply.newAverage == Get(old(db.users)[i].stats, Normal).avgSpeed)
  {
    var game := ValidateGame(user.userId, user.username, difficulty, wpm, accuracy, None, now);
    if game.None? {
      return InvalidGame;
    }
    db.games := db.games + [game.value];
    var found := IndexOfId(db.users, user.userId);
    if found.None? {
      return UserNotFound;
    }
    var i := found.value;
    var t := ParseTier(difficulty).value;
    var record := db.users[i];
    record := record.(stats := Submit(record.stats, t, wpm));
    db.users := db.users[i := record];
    reply := Saved(Get(record.stats, Normal).avgSpeed);
  }

  const AccountDeleted := Reply(200, "Account and all related data deleted successfully.")

  /** `DELETE /delete-account`: the user and every history record with that `userId` go; 200 either way. */
  method DeleteAccount(db: Db, user: Claims) returns (reply: Reply)
    requires db.Valid()
    modifies db
    ensures db.Valid() && db.nextId == old(db.nextId)
    ensures reply == AccountDeleted
    ensures db.users == RemoveUser(old(db.users), user.userId)
    ensures db.games == RemoveGamesOf(old(db.games), user.userId)
  {
    db.users := RemoveUser(db.users, user.userId);
    db.games := RemoveGamesOf(db.games, user.userId);
    reply := AccountDeleted;
  }

  /**
   * After deletion the account leaves no trace: none of its history records
   * remain, every other record does, and its username appears on no tier's
   * leaderboard.
   */
  lemma DeletionLeavesNoTrace(users: seq<User>, games: seq<Game>, i: nat, t: Tier)
    requires UniqueUsernames(users) && UniqueIds(users) && i < |users|
    ensures forall g :: g in RemoveGamesOf(games, users[i].id) ==> g.userId != users[i].id
    ensures forall g :: g in games && g.userId != users[i].id ==> g in RemoveGamesOf(games, users[i].id)
    ensures forall e :: e in Ranking.Leaderboard(RemoveUser(users, users[i].id), Name(t)).entries ==>
              e.username != users[i].username
  {
    var rest := RemoveUser(users, users[i].id);
    forall e | e in Ranking.Leaderboard(rest, Name(t)).entries
      ensures e.username != users[i].username
    {
      Ranking.ListedUsersAreStored(rest, Name(t), e);
      var u :| u in rest && u.username == e.username;
      var j :| 0 <= j < |users| && users[j] == u;
      assert j != i;
    }
  }
}
