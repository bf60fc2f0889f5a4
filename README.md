# Typing-game score engine

This is a Dafny model of the rules at the centre of a Thai/English typing game. The game's backend is Node/Express with MongoDB and Gemini, and it has a browser client. The model covers:

- **Per-tier running averages.** Each user has a `(gamePlayed, avgSpeed)` pair for each of `Normal`, `NormalPlus` and `NormalProMax`. A submitted WPM updates the pair with `avg' = (avg·count + wpm)/(count + 1)`.
- **The leaderboard query.** It keeps users whose tier average is above 0, highest first, at most ten.
- **The user registry.** Registration, login and the `authMiddleware` token gate.
- **Score submission and account deletion**, with the append-only game history.
- **The text provider in server.js.** A bounded retry loop with exponential backoff and per-difficulty fallback sentences.
- **The browser-side scorer.** Per-code-unit marks, `correctCount`, accuracy, the end-of-game condition, `calculateWPM`, and the numbering of leaderboard rows.

The repository serves two parallel implementations:

- `server.js` defines its own routes on the MongoDB driver.
- `routes/*.js` do the same on mongoose models.

They differ in small ways, so each is modelled as written:

- A duplicate username gets 409 in one and 400 in the other.
- `routes/gameRoutes.js` returns a `newAverage`.
- Validation happens through the `Game` schema.
- `get-text` has no retries.

Module layout, one per concern:

| module | what it models |
|---|---|
| `Wrappers`, `Http` | `Option` and an HTTP reply (status and message) |
| `Text` | `String.prototype.split(' ')`, `join`, `trim` and `includes`, and the UTF-16 code units a JavaScript string is made of |
| `Tiers` | Difficulty tiers and the running-average step |
| `Models` | User and game records, and a `Db` class holding the two collections |
| `Ranking` | The leaderboard query, shared by both implementations because the query is the same |
| `Auth` | Bearer-token extraction and token claims |
| `Provider` | The retry and fallback policy of `server.js` |
| `Server` | The routes of `server.js` |
| `GameRoutes`, `AuthRoutes` | The routes under `routes/` |
| `Client` | `frontend/public/scripts/app.js` |

The database is a `Db` object whose `users`, `games` and `nextId` fields the route methods update, framed with `modifies db`. Its invariant `Valid()` says:

- every user has a non-empty username and credential. In the mongoose routes this is the user schema's `required` (backend/src/models/userModel.js:4-5); in server.js, whose raw `User` collection has no schema, only the register route's empty-field check ensures it;
- usernames are unique. In the mongoose routes this is the schema's unique index (backend/src/models/userModel.js:4); in server.js only the register route's lookup before the insert ensures it (backend/src/server.js:89-92);
- ids are unique and already issued.

Every route method preserves `Valid()`. The browser's game view is a `TypingGame` object:

- its character spans are an `array<Mark>`, one per UTF-16 code unit of the target, because `split('')` splits a JavaScript string into code units (a character above U+FFFF gets two spans);
- the input handler marks them in place in a loop.

Averages, WPM and accuracy are exact `real`s.

Where the code and its description differ, this model follows the code:

- The leaderboard keeps users on `avgSpeed > 0`, not on having played: a user whose only scores are 0 has played but is not listed.
- `server.js` does not validate the difficulty on submit. The history record is inserted first, with the difficulty string as given. An unknown difficulty then updates nothing, because the `$set` is empty (MongoDB 5.0 and later accept an empty `$set`).
- The history record is stored before the user lookup, so a missing user leaves an orphan record behind its 404.
- The token is the second space-separated piece of the `Authorization` header. The scheme word is never checked against `Bearer` (section 2.1 of RFC 6750).

## Model

| member | source | states |
|---|---|---|
| Tiers.ParseTier | backend/src/server.js:303-307 | a difficulty string names a tier exactly when it is one of the three tier names, and then names that one |
| Tiers.AddScore | backend/src/server.js:269-270 | one score raises the play count by one and the running total `avg·count` by exactly the score |
| Tiers.Submit | backend/src/server.js:263-281 | a score changes only the submitted tier's pair, by the running-average step; the other two tiers are untouched |
| Tiers.ReplayIsMean | backend/src/server.js:266-281 | after N scores from `(0, 0)` the count is N and the average is their arithmetic mean |
| Tiers.PositiveScoresPositiveAverage | backend/src/server.js:310 | with positive scores, a tier's average is above 0 exactly when it has been played, so such a tier qualifies for the leaderboard once played |
| Tiers.ZeroScoresKeepZeroAverage | backend/src/server.js:269-270 | scores of 0 raise the play count but leave the average at 0 |
| Tiers.ThreeScoresExample | backend/src/server.js:269-270 | the scores 40, 60, 50 give the averages 40, 50, 50 |
| Models.NewUser | backend/src/models/userModel.js:8-14 | a new user keeps the given name and credential, and all six counters start at 0 |
| Models.ValidateGame | backend/src/models/gameModel.js:4-9 | a history record validates exactly when the username is present and the difficulty is one of the enum values; it keeps every field, and `createdAt` defaults to now |
| Models.IndexOfUsername | backend/src/server.js:89 | `findOne({ username })` finds the first user with that name, or reports that none has it |
| Models.IndexOfId | backend/src/server.js:256 | `findOne({ _id })` finds the first user with that id, or reports that none has it |
| Models.UsernameLookupFindsUser | backend/src/models/userModel.js:4 | with unique usernames, looking up a stored user's name finds that user |
| Models.IndexOfIdDependsOnIds | backend/src/server.js:256 | the lookup by id depends on the stored ids only, so a stats update does not move it |
| Models.ScoreUpdate | backend/src/server.js:263-287 | the found user's submitted tier gets the running-average step; every other user and field is unchanged; nothing changes for a missing user or an unknown difficulty |
| Models.SubmitAllIsMean | backend/src/server.js:263-287 | a user who submits N scores to a fresh tier ends up with N games and their mean, with the other tiers unchanged |
| Models.RemoveUser | backend/src/routes/gameRoutes.js:122 | exactly the users without that id remain; unique usernames and ids stay unique |
| Models.RemoveUserCounts | backend/src/routes/gameRoutes.js:122 | every user without that id remains as many times as before, and none with it |
| Models.RemoveGamesOf | backend/src/routes/gameRoutes.js:125 | every history record of another user remains as many times as before, and none of the user's remain |
| Models.Db.constructor | backend/src/models/userModel.js:3-15 | an empty database satisfies the invariant: required username and credential, unique usernames, unique issued ids |
| Ranking.Entries | backend/src/server.js:313 | each user is projected to its username and its tier average, in storage order |
| Ranking.Qualifying | backend/src/server.js:310 | the `$gt: 0` filter keeps each entry with a positive average as often as it occurs, and drops every other entry |
| Ranking.Insert | backend/src/server.js:311 | inserting into a list sorted by descending average keeps it sorted and adds exactly that entry |
| Ranking.SortDesc | backend/src/server.js:311 | `.sort({ field: -1 })` returns a permutation in non-increasing average order |
| Ranking.TakeOfSortedIsTop | backend/src/server.js:312 | `.limit(n)` on a sorted arrangement keeps min(size, n) entries, and nothing it cuts beats the last one kept |
| Ranking.TopIsTopN | backend/src/server.js:309-314 | filter, sort and limit give a correct top-n list: sorted, drawn from the qualifying entries, and leaving out none better than the last |
| Ranking.Leaderboard | backend/src/server.js:303-314 | 400 exactly for an unknown difficulty; otherwise at most ten users, each with a positive tier average, in non-increasing order, and no omitted qualifying user beats the last listed; gameRoutes.js:98-107 runs the same query |
| Ranking.EmptyTierGivesEmptyBoard | backend/src/server.js:310 | a tier in which nobody has a positive average gives an empty list, not an error |
| Ranking.ZeroAverageNotRanked | backend/src/server.js:310 | a user with a tier average of 0 is never listed, even after playing |
| Ranking.ListedUsersAreStored | backend/src/server.js:309-314 | every listed username belongs to a stored user |
| Auth.BearerToken | backend/src/server.js:67 | a token is found only in a present header; it is non-empty and contains no space |
| Auth.TokenOfShapedHeader | backend/src/server.js:67 | a header `scheme token…` yields that token, whatever the scheme word |
| Auth.ShapeOfTokenHeader | backend/src/server.js:67 | whenever a token is found, the header reads scheme word, one space, the token, then nothing or a part that starts with a space |
| Auth.BearerTokenIffShape | backend/src/server.js:67 | a token is found exactly when the header has that shape |
| Auth.NoSpaceNoToken | backend/src/server.js:67-69 | a header without a space, such as a bare token, gives no token |
| Provider.EffectiveStatus | backend/src/server.js:166 | a truthy status is kept; otherwise an 'overloaded' message gives 503 and anything else gives no status |
| Provider.BackoffDoubles | backend/src/server.js:170 | the first wait is 500 ms and each later wait is twice the one before |
| Provider.GenerateWithRetries | backend/src/server.js:154-179 | at most `maxAttempts` calls; every call before the last failed retryably and was followed by its backoff; the first success is returned; the last error is rethrown once it is not retryable or attempts run out |
| Provider.RetryRunIsUnique | backend/src/server.js:154-179 | the answers and the attempt budget determine the outcome, the call count and the sleeps |
| Provider.Samples | backend/src/server.js:183-196 | each tier has exactly two fallback sentences |
| Provider.SamplePool | backend/src/server.js:197 | a known difficulty uses its own pool and any other key uses the Normal pool |
| Provider.PickIndex | backend/src/server.js:198 | `floor(random·n)` is an index below n; for two entries it is 0 exactly when random < 0.5 |
| Provider.FallbackText | backend/src/server.js:182-199 | the fallback is a sentence from the difficulty's pool: the first when random < 0.5, else the second |
| Provider.GetText | backend/src/server.js:208-226 | 400 exactly for an unknown difficulty, with no model call; otherwise 1 to 3 calls, all but the last failing retryably; the text is the one a retry run with that many calls (`IsRetryRun`) generates, or the fallback sentence when that run ends in an error |
| Server.AuthMiddleware | backend/src/server.js:66-78 | no token gives 401 'Access denied. No token.'; a token `verify` rejects gives 400; otherwise the request passes with the decoded claims |
| Server.Register | backend/src/server.js:82-109 | an empty field gives 400 and a taken name gives 409, neither changing anything; otherwise exactly one user is appended with zeroed stats, and 201 |
| Server.Login | backend/src/server.js:111-140 | an empty field gives 400; otherwise a login succeeds exactly when a stored user has that name and password, and its claims are the id and name of the stored user with that name and password; otherwise 401 |
| Server.SubmitScore | backend/src/server.js:238-295 | one history record is always appended before the lookup; 404 exactly when the user is missing; otherwise 201 and the running-average update, which leaves everything unchanged for an unknown difficulty |
| GameRoutes.ReplaceNewlines | backend/src/routes/gameRoutes.js:32 | every line feed becomes a space and every other character stays in place |
| GameRoutes.GetText | backend/src/routes/gameRoutes.js:14-38 | 400 for an unknown difficulty whatever the model would say; a successful answer comes back with the same length, every line feed turned into a space and every other character kept; a failed call gives 500 |
| GameRoutes.SubmitScore | backend/src/routes/gameRoutes.js:42-88 | a record that fails schema validation gives 500 and stores nothing; otherwise the record is saved before the lookup; 404 exactly when the user is missing; otherwise the tier update, and `newAverage` is the Normal average, unchanged by a score in another tier |
| GameRoutes.DeleteAccount | backend/src/routes/gameRoutes.js:117-131 | the user and all of its history records are removed and nothing else is; the reply is 200 |
| GameRoutes.DeletionLeavesNoTrace | backend/src/routes/gameRoutes.js:119-125 | after deletion none of the account's records remain, every other record does, and its name is on no tier's leaderboard |
| AuthRoutes.Register | backend/src/routes/authRoutes.js:9-31 | an empty field and an existing name both give 400 and change nothing; otherwise exactly one user is added with the hash of the password and zeroed stats, and 201; an empty hash fails `required` with 500 |
| AuthRoutes.Login | backend/src/routes/authRoutes.js:34-58 | a login succeeds exactly when a stored user has that name and its hash matches the password; an unknown name and a wrong password both get 400 'Invalid credentials.' |
| AuthRoutes.AuthMiddleware | backend/src/routes/authRoutes.js:61-73 | no token gives 401 'Access denied. No token provided.'; a rejected token gives 400; otherwise the request passes with the decoded claims |
| Client.MarkAt | frontend/public/scripts/app.js:267-278 | a position is untyped exactly when it is not yet typed, and correct exactly when the typed code unit there equals the target's |
| Client.Marks | frontend/public/scripts/app.js:227-230 | one mark per UTF-16 code unit of the target, each as above |
| Client.CorrectInCountsMarks | frontend/public/scripts/app.js:265-278 | the count after visiting `n` spans is the number of `Correct` marks among the first `n` |
| Client.CorrectCount | frontend/public/scripts/app.js:265-278 | `correctCount` is the number of spans marked correct; it is at most both lengths, and it equals the target length exactly when the typed units start with the whole target |
| Client.GameEndsIffExact | frontend/public/scripts/app.js:289-291 | the end condition holds exactly when the typed code units equal the target's |
| Client.AstralMismatchIsHalfCorrect | frontend/public/scripts/app.js:263-286 | typing U+1F600 for U+1F60A marks two spans, the first correct (the shared high surrogate), so the accuracy shown is 50 |
| Client.Accuracy | frontend/public/scripts/app.js:281-286 | accuracy is 100 when nothing is typed; otherwise `accuracy·typed = correct·100`; it lies in [0, 100] and is 100 exactly when every typed unit is correct |
| Client.TypingGame.constructor | frontend/public/scripts/app.js:9-12 | no game in progress and an empty target |
| Client.TypingGame.LoadText | frontend/public/scripts/app.js:208-230 | the game stops, accuracy shows 100, and the target becomes the text's code units, with fresh spans, all unmarked |
| Client.TypingGame.Start | frontend/public/scripts/app.js:243-246 | a game starts exactly when the target is not empty |
| Client.TypingGame.OnInput | frontend/public/scripts/app.js:260-292 | outside a game nothing changes; during one every span gets its mark, the shown accuracy and the count are as above, and the game ends exactly when the typed code units equal the target's (by `Text.Utf16Injective`, exactly when the typed value is the loaded text) |
| Client.TypingGame.MarkSpans | frontend/public/scripts/app.js:263-278 | the loop leaves every span marked and returns the number of correct positions |
| Client.Words | frontend/public/scripts/app.js:297 | the word count is one more than the number of spaces in the trimmed input, so it is at least 1 |
| Client.PerMinute | frontend/public/scripts/app.js:298 | the speed is positive and, multiplied by the seconds, gives back 60 × words |
| Client.CalculateWpm | frontend/public/scripts/app.js:295-301 | nothing at 0 seconds; otherwise a positive `60·words/seconds` |
| Client.WordsOfSentence | frontend/public/scripts/app.js:297 | for non-empty words without whitespace joined by single spaces, the word count is the number of words |
| Client.RenderLeaderboard | frontend/public/scripts/app.js:155-187 | no data gives the 'No data' message; otherwise one row per entry, in the order received, ranked from 1 |
| Client.RanksFollowAverages | frontend/public/scripts/app.js:173-178 | the rendered leaderboard has at most ten rows ranked 1, 2, …; a better rank never has a lower average, and every average is positive |
| Text.Split | backend/src/server.js:67 | `split(' ')` gives one more piece than there are separators, and no piece contains the separator |
| Text.JoinOfSplit | backend/src/server.js:67 | joining the pieces gives the string back |
| Text.SplitOfJoin | backend/src/server.js:67 | splitting a join of separator-free pieces gives the pieces back |
| Text.TrimStart | frontend/public/scripts/app.js:297 | `trim` drops exactly the leading whitespace: a suffix is kept, everything dropped is whitespace, and the result does not start with whitespace |
| Text.TrimEnd | frontend/public/scripts/app.js:297 | likewise for the trailing whitespace |
| Text.Trim | frontend/public/scripts/app.js:297 | the trimmed text is no longer than the input, and it neither starts nor ends with whitespace |
| Text.TrimIsMiddle | frontend/public/scripts/app.js:297 | the trimmed text is a slice of the input, and everything before and after that slice is whitespace |
| Text.TrimOfTrimmed | frontend/public/scripts/app.js:297 | text without whitespace at its ends is unchanged by `trim`, so trimming twice is trimming once |
| Text.ContainsIsSubstring | backend/src/server.js:166 | `includes` holds exactly when the substring occurs at some index |
| Text.EncodeChar | frontend/public/scripts/app.js:227-228 | a character below U+10000 is one code unit equal to it and not a surrogate; any other is a high surrogate followed by a low one |
| Text.Utf16RoundTrip | frontend/public/scripts/app.js:227-228 | reading a string's code units back as characters gives the string |
| Text.Utf16Injective | frontend/public/scripts/app.js:289 | two strings have the same code units exactly when they are equal |

## Left out

- Express routing, CORS and static serving, which are I/O glue, and the `catch` blocks around database calls that turn a driver exception into a 500: the driver is not modelled, so it never throws. The thrown errors the model does cover are:
  - the provider errors that `Provider.GenerateWithRetries` retries and then rethrows (backend/src/server.js:154-179);
  - the catch that falls back to a sample sentence in `Provider.GetText` (backend/src/server.js:220-226);
  - the failed model call that `GameRoutes.GetText` answers with 500 (backend/src/routes/gameRoutes.js:34-37);
  - a token that fails verification, which both `AuthMiddleware`s answer with 400;
  - the mongoose validation failure in `GameRoutes.SubmitScore`;
  - the empty hash that fails `required` in `AuthRoutes.Register`.
- The MongoDB and mongoose drivers. Collections are sequences in a `Db` object, and each query is modelled by the result it gives.
- Casting a malformed id to `ObjectId`: ids are naturals.
- Concurrency. Two submissions to the same user can interleave between the read and the `$set` and lose an update. The model runs requests one after another, and a comment in `Server` notes the race.
- Floating point and `toFixed`. Averages, accuracy and WPM are exact reals, and display rounding is not modelled.
- Gemini: the SDK, the prompts and the real `sleep`. The provider is the sequence of its answers, at least `maxAttempts` of them. Sleeps are returned as their lengths in milliseconds.
- `Math.random`: it is a parameter in [0, 1).
- bcrypt and JWT. Hashing, hash comparison and token verification are function parameters, and a login returns the claims it would sign. Token expiry is not modelled.
- A missing body field (`undefined`). It is modelled as the empty string for text fields, and numeric fields are always present. As a result, mongoose's dropping of an `undefined` filter in `findOne({ username })` is not modelled.
- Prototype keys such as `toString` in `samples[difficulty]`. Any non-tier key falls back to the Normal pool.
- The schema's `ref: 'User'` on `userId`. Mongoose does not check it on save, and neither does the model.
- The projection of `_id` in the mongoose leaderboard.
- The order of tied averages, which the query leaves to storage. `Ranking.Leaderboard` states the result as a relation that holds for any tie order.
- `check_model.js`, a network script.
- In the browser: the DOM, timers, `localStorage`, `apiFetch`, paste blocking, view switching, the logged-out message and the error path of `resetGame`, and the submission in `endGame`.
- dotenv loading and console logging.
- MongoDB servers before 5.0, which reject an update whose `$set` is empty: on those, the unknown-difficulty path of `Server.SubmitScore` (backend/src/server.js:284-287) ends in the `catch` and a 500, where the model answers 201 with nothing changed.
- How the browser parses each span's markup. app.js:227-230 writes every code unit into its own `<span>` as HTML. The parser drops U+0000, so that span is empty, can never be marked correct, and a target holding it never ends the game; the model ends it on an exact copy. The parser also turns a carriage return into a line feed, so the page marks a typed line feed correct against a target carriage return, where the model marks it incorrect.
- Client.TypingGame.LoadText: the new text and its spans are installed in one step. The page clears the old spans before the request and installs the new ones after it.
