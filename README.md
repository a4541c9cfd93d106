# GameHub in Dafny

GameHub is an Android game hub with four mini-games: tic-tac-toe against a CPU, rock-paper-scissors, a Simon-style memory game, and number guessing. It has Firebase sign-in and sign-up, a per-game online leaderboard, and a small login cache in shared preferences. This project models the logic under the widgets:

- **ScoreManager** (`score_manager.dfy`): score submission and leaderboard retrieval.
  - The two database trees are fields of a `Store` class:
    - `scores/{user}/{game}` is an append-only history.
    - `leaderboard/{game}/{user}` holds one high-score record per user.
  - Every Firebase callback outcome is a parameter of the step: push failed, read failed, write failed.
  - The ranking step of `getLeaderboard` is a loop over the ordered query result.
- **The four games** (`tic_tac_toe.dfy`, `rps.dfy`, `memory.dfy`, `guess.dfy`): one class per activity.
  - Each class holds the activity's fields: the 3x3 `buttons` grid is an `array2`, and the memory game's lists are `seq` fields.
  - Each event handler is a method.
  - A handler that would call `ScoreManager.saveScore` returns the call's arguments (`submitted`, a `ScoreManager.Submission` of the game's `GAME_NAME` and the score) instead.
  - A random choice is a parameter with the range `java.util.Random` gives it.
  - A delayed `Handler` callback is a separate method.
- **SessionManager** (`session_manager.dfy`): the preferences file is a map from keys to values, and the static `instance` slot is a nullable class field.
- **Sign-up and login forms** (`signup.dfy`, `login.dfy`): `validateForm`, the sign-up failure branch, the password-reset guard, and the welcome name.
  - `Patterns.EMAIL_ADDRESS` is the uninterpreted parameter `isEmail`.
- **Leaderboard screen** (`leaderboard_screen.dfy`): the filter highlighting, the request for a game's top 50, the list, progress-bar and empty-state fields, the safety timeout, and the first-match rank search.

Shared modules:

- `Wrappers` holds `Option`.
- `Identity` holds the Firebase user profile.
- `Text` holds `String.trim`, `split("@")[0]`, `String.contains` and `Integer.parseInt` over ASCII digits, with `parseInt(toString(n)) == n` proved.

Java `null` is `None`. Java `String` is `seq<char>`.

## Model

| member | source | states |
|---|---|---|
| ScoreManager.DisplayNameFor | app/src/main/java/com/example/gamehub_m/data/ScoreManager.java:43-47 | The name is the profile name if that is non-null and non-empty. Otherwise it is the part of the email before its first '@' (a prefix with no '@', followed by '@' or the end). With no email it is "Anonymous". |
| ScoreManager.Store.constructor | app/src/main/java/com/example/gamehub_m/data/ScoreManager.java:26-28 | The database reference starts from the given contents of the two trees. |
| ScoreManager.Store.SaveScore | app/src/main/java/com/example/gamehub_m/data/ScoreManager.java:34-69 | With no user: error "User not logged in", and neither tree changes. If the push fails: its error, and neither tree changes. Otherwise exactly one entry {score, timestamp, displayName} is appended to this user's history for this game, and then the leaderboard step runs. |
| ScoreManager.Store.UpdateLeaderboard | app/src/main/java/com/example/gamehub_m/data/ScoreManager.java:75-116 | The record is skipped, with success reported, only when the read succeeded and found a highScore >= score. Otherwise the whole record at (game, user) is overwritten: on a failed write the error is reported and nothing changes. |
| ScoreManager.UpdateIsLocal | app/src/main/java/com/example/gamehub_m/data/ScoreManager.java:76-99 | A leaderboard update changes no key other than (game, user). |
| ScoreManager.UpdateRaisesToMax | app/src/main/java/com/example/gamehub_m/data/ScoreManager.java:83-99 | After a successful read and write, the stored highScore is the max of the previous one and the score, or the score alone when there was none. |
| ScoreManager.FailedReadOverwrites | app/src/main/java/com/example/gamehub_m/data/ScoreManager.java:85-99 | When the read fails, the record is replaced even if it held a higher score. |
| ScoreManager.ReplayKeepsMaximum | app/src/main/java/com/example/gamehub_m/data/ScoreManager.java:82-99 | After sequential submissions with successful reads and writes, highScore equals the maximum of all submitted scores and of any earlier highScore. |
| ScoreManager.SubmissionScenario | app/src/main/java/com/example/gamehub_m/data/ScoreManager.java:82-99 | Submitting 7, 5, 12 leaves the highScore at 7, then 7, then 12. |
| ScoreManager.SaveAppendsOneEntry | app/src/main/java/com/example/gamehub_m/data/ScoreManager.java:49-59 | A push lengthens its own history list by one: earlier entries are unchanged, the new entry is last, and every other list is untouched. |
| ScoreManager.Kept | app/src/main/java/com/example/gamehub_m/data/ScoreManager.java:133-145 | Filtering the snapshot never yields more entries than rows. |
| ScoreManager.KeptFromRows | app/src/main/java/com/example/gamehub_m/data/ScoreManager.java:135-141 | Every entry built comes from a row whose displayName and highScore are non-null. |
| ScoreManager.KeptAll | app/src/main/java/com/example/gamehub_m/data/ScoreManager.java:133-145 | When no row is malformed, every row becomes an entry, in order. |
| ScoreManager.LastN | app/src/main/java/com/example/gamehub_m/data/ScoreManager.java:128 | limitToLast(n) yields min(n, N) rows, and they are the last ones of the ordering. |
| ScoreManager.Reversed | app/src/main/java/com/example/gamehub_m/data/ScoreManager.java:148 | Collections.reverse keeps the length and puts element i at position N-1-i. |
| ScoreManager.GetLeaderboard | app/src/main/java/com/example/gamehub_m/data/ScoreManager.java:124-163 | A cancelled query reports only its error message. Otherwise the loop yields the reversed well-formed entries of the last `limit` rows of the ordering. |
| ScoreManager.KeptAscending | app/src/main/java/com/example/gamehub_m/data/ScoreManager.java:127-145 | Filtering an ascending ordering (missing highScore first) keeps the entries in ascending highScore order. |
| ScoreManager.LastNAscending | app/src/main/java/com/example/gamehub_m/data/ScoreManager.java:127-128 | The last n rows of an ascending ordering are ascending. |
| ScoreManager.RankingDescending | app/src/main/java/com/example/gamehub_m/data/ScoreManager.java:127-148 | Over an ascending ordering, the ranking has at most `limit` entries in descending highScore order. |
| ScoreManager.RankingIsTop | app/src/main/java/com/example/gamehub_m/data/ScoreManager.java:127-148 | With all records well-formed, the ranking is exactly the top min(limit, N) records, highest first. |
| ScoreManager.RankingExample | app/src/main/java/com/example/gamehub_m/data/ScoreManager.java:127-148 | Records {A:10, B:30, C:20} with limit 2 rank as [B, C]. |
| ScoreManager.KeptConcat | app/src/main/java/com/example/gamehub_m/data/ScoreManager.java:133-145 | Filtering two runs of rows one after the other gives the entries of the first run followed by those of the second. |
| ScoreManager.KeptSplit | app/src/main/java/com/example/gamehub_m/data/ScoreManager.java:139-144 | A malformed record anywhere in the rows adds no entry: the rest are kept in order around it. |
| ScoreManager.MalformedRecordDropped | app/src/main/java/com/example/gamehub_m/data/ScoreManager.java:127-148 | A record missing displayName or highScore is dropped silently wherever it sits inside the limitToLast window, including first, where a missing highScore sorts. It takes one slot of the limit and adds no entry. |
| TicTacToe.Game.constructor | app/src/main/java/com/example/gamehub_m/ui/games/TicTacToeActivity.java:28-74 | The field initialisers and onCreate's resetBoard: an empty 3x3 board, an active game, the player's turn, roundCount 0 and both scores 0. |
| TicTacToe.AllEmpty | app/src/main/java/com/example/gamehub_m/ui/games/TicTacToeActivity.java:206-211 | The cleared board has nine cells and none is filled. |
| TicTacToe.Game.CheckWin | app/src/main/java/com/example/gamehub_m/ui/games/TicTacToeActivity.java:133-161 | The result is true iff some row, some column or one of the two diagonals is entirely the symbol. |
| TicTacToe.Game.MakeMove | app/src/main/java/com/example/gamehub_m/ui/games/TicTacToeActivity.java:122-131 | Exactly one cell changes, to the symbol, and roundCount goes up by one. |
| TicTacToe.Game.CollectEmptyCells | app/src/main/java/com/example/gamehub_m/ui/games/TicTacToeActivity.java:98-105 | The nested scan lists exactly the empty cells, in row order. |
| TicTacToe.EmptyAmong | app/src/main/java/com/example/gamehub_m/ui/games/TicTacToeActivity.java:98-105 | Every listed pair is an in-range cell that is empty. |
| TicTacToe.EmptyCellsCount | app/src/main/java/com/example/gamehub_m/ui/games/TicTacToeActivity.java:98-109 | There are 9 - filled empty cells. |
| TicTacToe.FillOne | app/src/main/java/com/example/gamehub_m/ui/games/TicTacToeActivity.java:122-124 | Marking an empty cell raises the filled count by exactly one, so roundCount keeps counting the filled cells. |
| TicTacToe.NoLineForOther | app/src/main/java/com/example/gamehub_m/ui/games/TicTacToeActivity.java:83-91 | Placing one mark never completes a line of the other mark. |
| TicTacToe.ActiveGameHasEmptyCell | app/src/main/java/com/example/gamehub_m/ui/games/TicTacToeActivity.java:95-109 | While fewer than 9 moves have been made, the CPU has an empty cell to choose. |
| TicTacToe.Game.OnCellClicked | app/src/main/java/com/example/gamehub_m/ui/games/TicTacToeActivity.java:76-92 | The click is ignored, with nothing changed, when the game is over, the cell is taken or it is the CPU's turn. Otherwise X is placed and the outcome is decided in this order: a win adds 1 to playerScore, ends the game and submits the cumulative playerScore under "TicTacToe"; else 9 moves is a draw; else the CPU move is scheduled. On a win or a draw it stays the player's turn. The invariant roundCount == filled cells is kept. |
| TicTacToe.Game.CpuMove | app/src/main/java/com/example/gamehub_m/ui/games/TicTacToeActivity.java:94-120 | Does nothing when the game is over. Otherwise O goes into the chosen empty cell. A CPU win adds 1 to cpuScore only and ends the game, with no submission; then comes the draw check; else the turn goes back to the player. On a win or a draw playerTurn is unchanged. |
| TicTacToe.Game.ResetBoard | app/src/main/java/com/example/gamehub_m/ui/games/TicTacToeActivity.java:206-212 | Every cell is empty. |
| TicTacToe.Game.ResetGame | app/src/main/java/com/example/gamehub_m/ui/games/TicTacToeActivity.java:196-204 | The board is empty, the game is active, it is the player's turn and roundCount is 0. Both scores are kept. |
| Rps.Game.constructor | app/src/main/java/com/example/gamehub_m/ui/games/RpsActivity.java:28-30 | Both scores are 0 and no round is animating. |
| Rps.CpuMoveFor | app/src/main/java/com/example/gamehub_m/ui/games/RpsActivity.java:95-98 | The draw 0..2 picks rock, paper or scissors from that array. |
| Rps.Winner | app/src/main/java/com/example/gamehub_m/ui/games/RpsActivity.java:100-117 | The result is 0, 1 or -1, and it is 0 iff the moves are equal. |
| Rps.WinnerFollowsCycle | app/src/main/java/com/example/gamehub_m/ui/games/RpsActivity.java:106-114 | The player wins iff their move is one step after the CPU's in the cycle rock, paper, scissors. The CPU wins iff it is two steps after. |
| Rps.WinnerAntisymmetric | app/src/main/java/com/example/gamehub_m/ui/games/RpsActivity.java:104-114 | Swapping the moves negates the result. |
| Rps.Game.PlayRound | app/src/main/java/com/example/gamehub_m/ui/games/RpsActivity.java:74-93 | Ignored while a round is animating; otherwise sets isAnimating. |
| Rps.Game.RevealCpuMove | app/src/main/java/com/example/gamehub_m/ui/games/RpsActivity.java:88-92 | The delayed reveal decides the round with Winner, and the score changes follow from that result. |
| Rps.Game.ShowResult | app/src/main/java/com/example/gamehub_m/ui/games/RpsActivity.java:119-155 | A win adds 1 to playerScore only, a loss adds 1 to cpuScore only, and a draw changes neither. The cumulative playerScore is submitted under "RPS" iff it is > 0. |
| Rps.Game.ResetRound | app/src/main/java/com/example/gamehub_m/ui/games/RpsActivity.java:157-158 | Clears isAnimating. |
| Memory.Game.constructor | app/src/main/java/com/example/gamehub_m/ui/games/MemoryActivity.java:34-77 | The sequence and userInput are empty, score is 0, and the colour buttons are disabled. |
| Memory.SaveScore | app/src/main/java/com/example/gamehub_m/ui/games/MemoryActivity.java:233-235 | A score is submitted iff it is > 0, and it is submitted unchanged under "Memory". |
| Memory.Game.NextRound | app/src/main/java/com/example/gamehub_m/ui/games/MemoryActivity.java:119-125 | Appends exactly one colour in 0..3 and keeps the earlier ones. Clears userInput and disables input. |
| Memory.Game.PlaybackFinished | app/src/main/java/com/example/gamehub_m/ui/games/MemoryActivity.java:149-153 | The end of playback enables input and keeps the invariant. |
| Memory.Game.StartGame | app/src/main/java/com/example/gamehub_m/ui/games/MemoryActivity.java:103-117 | A positive previous score is submitted. Then the sequence restarts with one colour, userInput is cleared and score is 0. |
| Memory.Game.HandleColorClick | app/src/main/java/com/example/gamehub_m/ui/games/MemoryActivity.java:185-227 | Ignored unless input is enabled; otherwise the colour is appended. A mismatch ends the game with input disabled and submits a positive score. A completed match adds exactly 1 to score and disables input. While input is enabled, userInput stays a proper prefix of sequence. |
| Memory.Game.OnBackPressed | app/src/main/java/com/example/gamehub_m/ui/games/MemoryActivity.java:258-263 | A positive score is submitted on leaving. |
| Text.Trim | app/src/main/java/com/example/gamehub_m/ui/games/GuessActivity.java:87 | The result is a contiguous slice of the input such that every char before it and every char after it is <= U+0020. It is empty iff every char is, and otherwise it starts and ends with a char above U+0020. |
| Text.TrimUnpadded | app/src/main/java/com/example/gamehub_m/ui/games/GuessActivity.java:87 | A string that is empty, or starts and ends with a char above U+0020, is returned unchanged. |
| Text.ParseInt | app/src/main/java/com/example/gamehub_m/ui/games/GuessActivity.java:94-100 | The result is Some iff the text is an optional '+' or '-' followed by at least one digit and denotes a value in the 32-bit range. That value is the decimal value of the digits, negated after '-'. Anything else is None, where Java throws NumberFormatException. |
| Text.ParseIntExamples | app/src/main/java/com/example/gamehub_m/ui/games/GuessActivity.java:96 | "+5" reads 5, "007" reads 7 and "-0" reads 0. A lone "-", " 5" and "4a" are None. |
| Text.LeadingZero | app/src/main/java/com/example/gamehub_m/ui/games/GuessActivity.java:96 | A leading zero does not change the value of a digit string. |
| Text.PlusSign | app/src/main/java/com/example/gamehub_m/ui/games/GuessActivity.java:96 | A '+' sign before a digit string reads the same as the digits alone. |
| Text.ParseOutOfRange | app/src/main/java/com/example/gamehub_m/ui/games/GuessActivity.java:96 | The decimal text of a number above 2147483647 is None, with or without '+'. With '-' it is None below -2147483648. |
| Text.ParseShowInt | app/src/main/java/com/example/gamehub_m/ui/games/GuessActivity.java:96 | parseInt reads back the decimal text of every 32-bit int. |
| Guess.ReadGuess | app/src/main/java/com/example/gamehub_m/ui/games/GuessActivity.java:87-105 | The checks run in this order: empty after trim, not a number, outside 1..100. Otherwise the input is the parsed value, in range. |
| Guess.ReadsTypedNumbers | app/src/main/java/com/example/gamehub_m/ui/games/GuessActivity.java:87-105 | Every number 1..100, typed plainly, is accepted as itself. |
| Guess.Hint | app/src/main/java/com/example/gamehub_m/ui/games/GuessActivity.java:148-154 | "Too low" iff guess < target, "too high" iff guess > target. |
| Guess.Game.constructor | app/src/main/java/com/example/gamehub_m/ui/games/GuessActivity.java:38-50 | totalScore is 0 and onCreate's first round is started: the target is in 1..100, 10 attempts remain and the game is not over. |
| Guess.Game.StartNewRound | app/src/main/java/com/example/gamehub_m/ui/games/GuessActivity.java:72-76 | The target is in 1..100, attemptsRemaining is 10 and gameOver is false. |
| Guess.Game.OnGuess | app/src/main/java/com/example/gamehub_m/ui/games/GuessActivity.java:87-157 | Rejected input changes nothing, and neither does a valid guess once the game is over. A correct guess earns attemptsRemaining (1..10) points and starts a new round. A wrong guess costs one attempt: at 0 the game is over and a positive total is submitted; otherwise the hint is given. attemptsRemaining stays in 0..10, and gameOver holds iff it is 0. |
| Guess.Game.SaveScoreToStore | app/src/main/java/com/example/gamehub_m/ui/games/GuessActivity.java:178-198 | The total is submitted under "Guess" iff it is > 0. |
| Guess.Game.RestartGame | app/src/main/java/com/example/gamehub_m/ui/games/GuessActivity.java:159-170 | A positive total is submitted. Then, whether or not the save succeeded, totalScore is 0 and a new round starts. |
| Guess.Game.ResetGame | app/src/main/java/com/example/gamehub_m/ui/games/GuessActivity.java:172-176 | totalScore is 0 and a new round starts. |
| Guess.Game.OnBackPressed | app/src/main/java/com/example/gamehub_m/ui/games/GuessActivity.java:205-215 | A positive total is submitted and the screen closes after the save; otherwise it closes at once. |
| SessionManager.Preferences.constructor | app/src/main/java/com/example/gamehub_m/data/SessionManager.java:33 | The preferences file opened on a first launch is empty. |
| SessionManager.Session.constructor | app/src/main/java/com/example/gamehub_m/data/SessionManager.java:31-35 | A session reads and writes the preferences file it is given. |
| SessionManager.InstanceSlot.constructor | app/src/main/java/com/example/gamehub_m/data/SessionManager.java:22 | The static instance starts null. |
| SessionManager.PutString | app/src/main/java/com/example/gamehub_m/data/SessionManager.java:41-44 | A non-null value is stored as that string, which getString then returns. A null value removes the key, so nothing of any type stays under it. No other key changes. |
| SessionManager.EmptyFileLoggedOut | app/src/main/java/com/example/gamehub_m/data/SessionManager.java:51-74 | An empty file reads as not logged in, and every getter returns null. |
| SessionManager.LoginReadsBack | app/src/main/java/com/example/gamehub_m/data/SessionManager.java:40-46 | After createLoginSession(u, n, e), isLoggedIn is true and the getters return exactly u, n and e. |
| SessionManager.LastLoginWins | app/src/main/java/com/example/gamehub_m/data/SessionManager.java:40-46 | A second login overwrites all three values. |
| SessionManager.Session.CreateLoginSession | app/src/main/java/com/example/gamehub_m/data/SessionManager.java:40-46 | The file becomes the logged-in state with these three values, and the getters read them back. |
| SessionManager.Session.Logout | app/src/main/java/com/example/gamehub_m/data/SessionManager.java:79-82 | The file is emptied, so it reads as logged out with null values. A second call leaves the same state. |
| SessionManager.InstanceSlot.GetInstance | app/src/main/java/com/example/gamehub_m/data/SessionManager.java:24-29 | The first call creates the instance over the shared file. Every later call returns that same object. |
| Signup.ValidateForm | app/src/main/java/com/example/gamehub_m/ui/login/SignupActivity.java:105-159 | Username and email are trimmed; the passwords are not. An empty field shows no error, and each field's error follows its rule (username < 3, email fails the pattern, password < 6, confirmation differs). The button is enabled iff all four fields are non-empty and none has an error. |
| Signup.RegistrationFailure | app/src/main/java/com/example/gamehub_m/ui/login/SignupActivity.java:192-205 | The toast shows the exception's message, or the registration-failed text when there is no exception. The email field is marked iff that text contains "email address is already in use". |
| Signup.DuplicateEmailMarksField | app/src/main/java/com/example/gamehub_m/ui/login/SignupActivity.java:195-202 | Any exception message containing the phrase is shown whole and marks the email field. |
| Signup.PhraseLengthMessage | app/src/main/java/com/example/gamehub_m/ui/login/SignupActivity.java:200-202 | A message exactly as long as the phrase marks the field iff it is the phrase. |
| Signup.CapitalisedPhraseNotMatched | app/src/main/java/com/example/gamehub_m/ui/login/SignupActivity.java:200-202 | The check is case-sensitive: "Email address is already in use" does not mark the field. |
| Text.ContainsInfix | app/src/main/java/com/example/gamehub_m/ui/login/SignupActivity.java:200 | String.contains finds any text placed between two others. |
| Login.ValidateForm | app/src/main/java/com/example/gamehub_m/ui/login/LoginActivity.java:102-130 | The email is trimmed and the password is not. An empty field shows no error; a non-empty email that fails the pattern is an error, and so is a password < 6. The button is enabled iff both fields are non-empty and valid. |
| Login.ResetRequest | app/src/main/java/com/example/gamehub_m/ui/login/LoginActivity.java:162-169 | A reset is requested, for the trimmed email, iff that email is non-empty and matches the pattern. |
| Login.WelcomeName | app/src/main/java/com/example/gamehub_m/ui/login/LoginActivity.java:144-147 | The profile display name if it is non-null (even if empty), else the typed email's text before the first '@'. |
| Text.BeforeFirst | app/src/main/java/com/example/gamehub_m/ui/login/LoginActivity.java:147 | split("@")[0] is the longest prefix without '@', and it is followed by '@' or the end of the string. |
| LeaderboardScreen.FindRank | app/src/main/java/com/example/gamehub_m/ui/leaderboard/LeaderboardActivity.java:154-166 | The rank is 1 + the index of the first entry whose non-null userId equals the user's id. No match means no entry has that id, and a null userId never matches. |
| LeaderboardScreen.GameNamesMatchFilters | app/src/main/java/com/example/gamehub_m/ui/leaderboard/LeaderboardActivity.java:76-79 | Each game filter selects exactly the name its game saves scores under; Snake selects none. |
| LeaderboardScreen.RankToast | app/src/main/java/com/example/gamehub_m/ui/leaderboard/LeaderboardActivity.java:152-166 | With nobody signed in there is no rank toast. Otherwise it is "Your Rank: r" for the first entry with the user's id, or "not in the top 50" iff no entry has it. |
| LeaderboardScreen.RankToldUnique | app/src/main/java/com/example/gamehub_m/ui/leaderboard/LeaderboardActivity.java:152-166 | The rank toast is determined by the list and the user. |
| LeaderboardScreen.Screen.constructor | app/src/main/java/com/example/gamehub_m/ui/leaderboard/LeaderboardActivity.java:37-38 | Before onCreate the current game is the field default "Guess", the adapter is empty, nothing is loading, and the empty state is hidden with no text. |
| LeaderboardScreen.Screen.OnCreate | app/src/main/java/com/example/gamehub_m/ui/leaderboard/LeaderboardActivity.java:42-52 | The Guess leaderboard is selected, highlighted, loading, and requested. |
| LeaderboardScreen.Screen.LoadLeaderboard | app/src/main/java/com/example/gamehub_m/ui/leaderboard/LeaderboardActivity.java:121-138 | The progress bar shows, the empty state hides, and the top 50 of the game is requested. |
| LeaderboardScreen.Screen.OnFetched | app/src/main/java/com/example/gamehub_m/ui/leaderboard/LeaderboardActivity.java:138-182 | Loading ends either way. An error toasts its message and leaves the list and the empty state as they were. A result replaces the list: an empty one shows "No scores yet!" and no rank toast; a non-empty one hides the empty state and toasts the rank as RankToast does. |
| LeaderboardScreen.Screen.OnTimeout | app/src/main/java/com/example/gamehub_m/ui/leaderboard/LeaderboardActivity.java:126-136 | Only while loading: loading ends with a toast, and an empty list shows the timed-out text. Otherwise nothing changes. |
| LeaderboardScreen.Screen.UpdateFilterButtons | app/src/main/java/com/example/gamehub_m/ui/leaderboard/LeaderboardActivity.java:89-106 | The four game filters are restyled so that exactly the current game's filter is highlighted. |
| LeaderboardScreen.Screen.SelectGame | app/src/main/java/com/example/gamehub_m/ui/leaderboard/LeaderboardActivity.java:83-87 | currentGame becomes the game, its filter alone is highlighted, it is loading with the empty state hidden, and its top 50 is requested. The list is kept until the result arrives. |
| LeaderboardScreen.Screen.OnFilterClicked | app/src/main/java/com/example/gamehub_m/ui/leaderboard/LeaderboardActivity.java:73-81 | A game filter selects its game and becomes the only highlighted filter. A game click keeps the list and the empty-state text until the result arrives. Snake changes nothing, the empty-state text included, and requests nothing. |

## Left out

- Firebase Auth and Realtime Database calls are modelled only through their outcomes:
  - sign-in, sign-up, the profile update, and sending the reset mail are left out;
  - the outcome of push, get, setValue and the ordered query is a parameter;
  - the read-then-write race between two concurrent `updateLeaderboard` calls is not modelled (concurrency).
- The store's ordering of a game's records is an input sequence. Firebase's tie-break by key among equal highScores is not modelled. `Ascending` states only the highScore order, with missing values first.
- ScoreManager.GetLeaderboard: requires `limit > 0`, which `limitToLast` itself demands. Every caller passes 50.
- ScoreManager.GetLeaderboard: a child whose `displayName` or `highScore` has the wrong type makes Java's `getValue` throw, and the row is then skipped. The model treats only missing children as malformed; typed values are always well-typed.
- `Handler.postDelayed` timing is left out:
  - the 800/500 ms flashes of `playSequence` and the loop that schedules them;
  - the 600/700 ms CPU delays;
  - the 1 s pause before the next memory round;

  Each delayed callback, and the 10 s leaderboard timeout, is a separately invoked method. `Memory.Game.PlaybackFinished` is only the last step of the playback.
- `java.util.Random` is replaced by caller-supplied values with the source's ranges.
- `System.currentTimeMillis` is replaced by timestamp parameters.
- Android UI is left out: colours, alpha, dialogs, navigation, `setLoading`, and the visibility of views other than the leaderboard's list, progress bar and empty state. Toasts are modelled only where a result carries their content.
- LeaderboardScreen.Screen.constructor: the layout file is not part of this model, so the initial visibilities are unknown. The model starts with the progress bar and the empty state hidden.
- MainActivity.java is not part of this model: it is navigation plus its own display-name defaults.
- LeaderboardAdapter.java is not part of this model: it is view binding and medal colours.
- Score arithmetic uses unbounded integers. Java's 32-bit `int` overflow of `playerScore`, `cpuScore`, `score` or `totalScore` would need over two billion wins and is not modelled.
- Text.Trim and the length rules count Dafny `char`s. Java counts UTF-16 code units. The two differ only for characters outside the Basic Multilingual Plane.
- Text.ParseInt accepts only ASCII digits. Java's `parseInt` also accepts other Unicode decimal digits.
- Text.BeforeFirst: Java's `split("@")[0]` throws on an email made only of '@' characters. The model returns the empty prefix there instead of crashing.
- `Patterns.EMAIL_ADDRESS` is the uninterpreted predicate `isEmail`.
- SessionManager.GetBoolean and SessionManager.GetString: an entry of the other type reads as the default, where SharedPreferences throws ClassCastException. No caller writes a key with both types, so the case is unreachable in the app.
- SharedPreferences' asynchronous `apply()` persistence is left out. The model treats writes as immediate.
- The `synchronized` guard of `getInstance` is left out (concurrency).
- The session getters (`Session.IsLoggedIn`, `UserId`, `Username`, `Email`) carry no contract of their own. Their behaviour is stated through `CreateLoginSession`, `Logout` and the lemmas on `GetBoolean` and `GetString`.
- Guess.Game.RestartGame: the save and the reset are one step. The app resets only once the save callback runs, and input arriving in between is not modelled.
- Signup: when registration fails with an exception whose message is null, Java throws on `contains`. The model's failure message is always a string.
