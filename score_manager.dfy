/**
 * Score submission and leaderboard retrieval against the hosted database.
 *
 * The database is two trees, modelled as maps:
 *   scores/{userId}/{gameName}/{pushId}  -> history, keyed (userId, gameName), in push order
 *   leaderboard/{gameName}/{userId}      -> one record, keyed (gameName, userId)
 * Each asynchronous database callback becomes an explicit outcome parameter
 * (did the push succeed, did the read succeed, did the write fail and with which
 * message), and System.currentTimeMillis becomes a timestamp parameter.
 */
module ScoreManager {
  import opened Wrappers
  import opened Identity
  import Text

  const NOT_LOGGED_IN: string := "User not logged in"
  const ANONYMOUS: string := "Anonymous"

  type Key = (string, string)

  /** One immutable history entry {score, timestamp, displayName}. */
  datatype ScoreEntry = ScoreEntry(score: int, timestamp: int, displayName: string)

  /** A node under leaderboard/{gameName}: any child may be missing. */
  datatype Record = Record(displayName: Option<string>, highScore: Option<int>, userId: Option<string>, updatedAt: Option<int>)

  /** The arguments of one saveScore call: the game's leaderboard name and the score. */
  datatype Submission = Submission(game: string, score: int)

  /** What the OnScoreSavedListener is told. */
  datatype Outcome = Success | Error(message: string)

  /**
   * The name written with a score: the profile name when it is non-null and
   * non-empty, else the email text before the first '@', else "Anonymous".
   */
  function DisplayNameFor(user: User): (name: string)
    ensures user.displayName.Some? && user.displayName.value != [] ==> name == user.displayName.value
    ensures (user.displayName.None? || user.displayName.value == []) && user.email.Some? ==>
      var email := user.email.value;
      '@' !in name && |name| <= |email| && name == email[..|name|] && (|name| < |email| ==> email[|name|] == '@')
    ensures (user.displayName.None? || user.displayName.value == []) && user.email.None? ==> name == ANONYMOUS
  {
    if user.displayName.Some? && user.displayName.value != [] then user.displayName.value
    else if user.email.Some? then Text.BeforeFirst(user.email.value, '@')
    else ANONYMOUS
  }

  function Lookup<V>(m: map<Key, V>, k: Key): Option<V> {
    if k in m then Some(m[k]) else None
  }

  function HistoryOf(history: map<Key, seq<ScoreEntry>>, k: Key): seq<ScoreEntry> {
    if k in history then history[k] else []
  }

  /**
   * The decision taken when the leaderboard read completes: keep the record only
   * when the read succeeded and found a highScore of at least `score`.
   */
  predicate ShouldUpdate(readSucceeded: bool, existing: Option<Record>, score: int) {
    !(readSucceeded && existing.Some? && existing.value.highScore.Some? && existing.value.highScore.value >= score)
  }

  /** The whole record that replaces leaderboard/{gameName}/{userId}. */
  function NewRecord(name: string, score: int, uid: string, now: int): Record {
    Record(Some(name), Some(score), Some(uid), Some(now))
  }

  /** The leaderboard after one updateLeaderboard call with the given read and write outcomes. */
  function LeaderboardAfter(board: map<Key, Record>, game: string, uid: string, name: string, score: int, now: int,
                            readSucceeded: bool, writeSucceeded: bool): map<Key, Record>
  {
    if ShouldUpdate(readSucceeded, Lookup(board, (game, uid)), score) && writeSucceeded
    then board[(game, uid) := NewRecord(name, score, uid, now)]
    else board
  }

  /** The highScore stored at `k`, if the record and its highScore child exist. */
  function HighScoreAt(board: map<Key, Record>, k: Key): Option<int> {
    if k in board then board[k].highScore else None
  }

  function Max(a: int, b: int): int {
    if a < b then b else a
  }

  /** An update touches only its own key. */
  lemma UpdateIsLocal(board: map<Key, Record>, game: string, uid: string, name: string, score: int, now: int,
                      readSucceeded: bool, writeSucceeded: bool, k: Key)
    requires k != (game, uid)
    ensures var after := LeaderboardAfter(board, game, uid, name, score, now, readSucceeded, writeSucceeded);
      (k in after <==> k in board) && (k in board ==> after[k] == board[k])
  {
  }

  /**
   * With a successful read and write, the stored highScore becomes the larger of
   * the previous one and the new score (the new score alone if there was none).
   */
  lemma UpdateRaisesToMax(board: map<Key, Record>, game: string, uid: string, name: string, score: int, now: int)
    ensures var after := LeaderboardAfter(board, game, uid, name, score, now, true, true);
      var before := HighScoreAt(board, (game, uid));
      HighScoreAt(after, (game, uid)) == Some(if before.Some? then Max(before.value, score) else score)
  {
  }

  /** When the read fails the record is overwritten whatever it held, even with a lower score. */
  lemma FailedReadOverwrites(board: map<Key, Record>, game: string, uid: string, name: string, score: int, now: int)
    ensures LeaderboardAfter(board, game, uid, name, score, now, false, true) == board[(game, uid) := NewRecord(name, score, uid, now)]
  {
  }

  // ---- sequential submissions ----

  function SeqMax(s: seq<int>): int
    requires s != []
  {
    if |s| == 1 then s[0] else Max(SeqMax(s[..|s| - 1]), s[|s| - 1])
  }

  /** The leaderboard after submitting `scores` one after the other, every read and write succeeding. */
  function Replay(board: map<Key, Record>, game: string, uid: string, name: string, scores: seq<int>, now: int): map<Key, Record>
  {
    if scores == [] then board
    else LeaderboardAfter(Replay(board, game, uid, name, scores[..|scores| - 1], now), game, uid, name, scores[|scores| - 1], now, true, true)
  }

  /**
   * For sequential submissions with successful reads, the stored highScore ends
   * equal to the maximum of everything submitted (and of a previous highScore).
   */
  lemma {:induction false} ReplayKeepsMaximum(board: map<Key, Record>, game: string, uid: string, name: string, scores: seq<int>, now: int)
    requires scores != []
    ensures var before := HighScoreAt(board, (game, uid));
      HighScoreAt(Replay(board, game, uid, name, scores, now), (game, uid))
        == Some(if before.Some? then Max(before.value, SeqMax(scores)) else SeqMax(scores))
  {
    var init := scores[..|scores| - 1];
    var last := scores[|scores| - 1];
    UpdateRaisesToMax(Replay(board, game, uid, name, init, now), game, uid, name, last, now);
    if init != [] {
      ReplayKeepsMaximum(board, game, uid, name, init, now);
    }
  }

  /** The three-step example: 7 creates the record, 5 leaves it at 7, 12 raises it to 12. */
  lemma SubmissionScenario(game: string, uid: string, name: string, now: int)
    ensures HighScoreAt(Replay(map[], game, uid, name, [7], now), (game, uid)) == Some(7)
    ensures HighScoreAt(Replay(map[], game, uid, name, [7, 5], now), (game, uid)) == Some(7)
    ensures HighScoreAt(Replay(map[], game, uid, name, [7, 5, 12], now), (game, uid)) == Some(12)
  {
    ReplayKeepsMaximum(map[], game, uid, name, [7], now);
    ReplayKeepsMaximum(map[], game, uid, name, [7, 5], now);
    ReplayKeepsMaximum(map[], game, uid, name, [7, 5, 12], now);
  }

  /** The two trees of the database that scores touch. */
  class Store {
    var history: map<Key, seq<ScoreEntry>>
    var leaderboard: map<Key, Record>

    constructor (history0: map<Key, seq<ScoreEntry>>, leaderboard0: map<Key, Record>)
      ensures history == history0 && leaderboard == leaderboard0
    {
      history := history0;
      leaderboard := leaderboard0;
    }

    /**
     * updateLeaderboard: read leaderboard/{game}/{uid}, decide, and when the
     * decision is to update, overwrite the whole record.
     */
    method UpdateLeaderboard(game: string, uid: string, name: string, score: int, now: int,
                             readSucceeded: bool, writeError: Option<string>) returns (outcome: Outcome)
      modifies this`leaderboard
      ensures leaderboard == LeaderboardAfter(old(leaderboard), game, uid, name, score, now, readSucceeded, writeError.None?)
      ensures outcome == if ShouldUpdate(readSucceeded, Lookup(old(leaderboard), (game, uid)), score) && writeError.Some?
                         then Error(writeError.value) else Success
    {
      var shouldUpdate := true;
      if readSucceeded && (game, uid) in leaderboard {
        var current := leaderboard[(game, uid)].highScore;
        if current.Some? && current.value >= score {
          shouldUpdate := false;
        }
      }
      if shouldUpdate {
        if writeError.None? {
          leaderboard := leaderboard[(game, uid) := NewRecord(name, score, uid, now)];
          outcome := Success;
        } else {
          outcome := Error(writeError.value);
        }
      } else {
        outcome := Success;
      }
    }

    /**
     * saveScore: with no signed-in user report "User not logged in"; otherwise
     * push one history entry and, only once the push succeeded, update the leaderboard.
     */
    method SaveScore(game: string, score: int, user: Option<User>, entryTime: int, pushError: Option<string>,
                     readSucceeded: bool, writeError: Option<string>, updateTime: int) returns (outcome: Outcome)
      modifies this
      ensures user.None? ==> outcome == Error(NOT_LOGGED_IN) && history == old(history) && leaderboard == old(leaderboard)
      ensures user.Some? && pushError.Some? ==>
        outcome == Error(pushError.value) && history == old(history) && leaderboard == old(leaderboard)
      ensures user.Some? && pushError.None? ==>
        var uid := user.value.uid;
        var name := DisplayNameFor(user.value);
        && history == old(history)[(uid, game) := HistoryOf(old(history), (uid, game)) + [ScoreEntry(score, entryTime, name)]]
        && leaderboard == LeaderboardAfter(old(leaderboard), game, uid, name, score, updateTime, readSucceeded, writeError.None?)
        && outcome == if ShouldUpdate(readSucceeded, Lookup(old(leaderboard), (game, uid)), score) && writeError.Some?
                      then Error(writeError.value) else Success
    {
      if user.None? {
        outcome := Error(NOT_LOGGED_IN);
        return;
      }
      var uid := user.value.uid;
      var name := DisplayNameFor(user.value);
      if pushError.Some? {
        outcome := Error(pushError.value);
        return;
      }
      history := history[(uid, game) := HistoryOf(history, (uid, game)) + [ScoreEntry(score, entryTime, name)]];
      outcome := UpdateLeaderboard(game, uid, name, score, updateTime, readSucceeded, writeError);
    }
  }

  /** A submission appends exactly one entry to its own history list and leaves every other list alone. */
  lemma SaveAppendsOneEntry(history: map<Key, seq<ScoreEntry>>, k: Key, e: ScoreEntry, other: Key)
    ensures var after := history[k := HistoryOf(history, k) + [e]];
      |HistoryOf(after, k)| == |HistoryOf(history, k)| + 1
      && HistoryOf(after, k)[..|HistoryOf(history, k)|] == HistoryOf(history, k)
      && HistoryOf(after, k)[|HistoryOf(history, k)|] == e
      && (other != k ==> HistoryOf(after, other) == HistoryOf(history, other))
  {
  }

  // ---- leaderboard retrieval ----

  /** ScoreManager.LeaderboardEntry. */
  datatype Entry = Entry(userId: Option<string>, displayName: string, highScore: int)

  /** How the query on leaderboard/{gameName} ordered by highScore completed. */
  datatype Query = Cancelled(message: string) | Ordered(children: seq<Record>)

  /** What the OnLeaderboardFetchListener is told. */
  datatype Fetch = Fetched(entries: seq<Entry>) | FetchError(message: string)

  predicate WellFormed(r: Record) {
    r.displayName.Some? && r.highScore.Some?
  }

  function EntryOf(r: Record): Entry
    requires WellFormed(r)
  {
    Entry(r.userId, r.displayName.value, r.highScore.value)
  }

  /** The entries built from the rows whose displayName and highScore are non-null, in row order. */
  function Kept(rows: seq<Record>): (r: seq<Entry>)
    ensures |r| <= |rows|
  {
    if rows == [] then []
    else
      var last := rows[|rows| - 1];
      Kept(rows[..|rows| - 1]) + if WellFormed(last) then [EntryOf(last)] else []
  }

  /** `e` is the entry of some well-formed row of `rows`. */
  ghost predicate FromRow(rows: seq<Record>, e: Entry) {
    exists k :: 0 <= k < |rows| && WellFormed(rows[k]) && e == EntryOf(rows[k])
  }

  /** Every kept entry comes from a well-formed row. */
  lemma {:induction false} KeptFromRows(rows: seq<Record>)
    ensures forall i :: 0 <= i < |Kept(rows)| ==> FromRow(rows, Kept(rows)[i])
  {
    if rows != [] {
      var init := rows[..|rows| - 1];
      var last := rows[|rows| - 1];
      KeptFromRows(init);
      var r := Kept(rows);
      var head := Kept(init);
      assert r == head + if WellFormed(last) then [EntryOf(last)] else [];
      forall i | 0 <= i < |r| ensures FromRow(rows, r[i]) {
        if i < |head| {
          assert FromRow(init, head[i]);
          var k :| 0 <= k < |init| && WellFormed(init[k]) && head[i] == EntryOf(init[k]);
          assert rows[k] == init[k];
        } else {
          assert r[i] == EntryOf(rows[|rows| - 1]);
        }
      }
    }
  }

  /** With no malformed row, every row is kept, in order. */
  lemma {:induction false} KeptAll(rows: seq<Record>)
    requires forall k :: 0 <= k < |rows| ==> WellFormed(rows[k])
    ensures |Kept(rows)| == |rows|
    ensures forall i :: 0 <= i < |rows| ==> Kept(rows)[i] == EntryOf(rows[i])
  {
    if rows != [] {
      var init := rows[..|rows| - 1];
      KeptAll(init);
    }
  }

  /** limitToLast(n): the last n rows of the ordering. */
  function LastN<T>(s: seq<T>, n: nat): (r: seq<T>)
    ensures |r| == if |s| <= n then |s| else n
    ensures r == s[|s| - |r|..]
  {
    if |s| <= n then s else s[|s| - n..]
  }

  /** Collections.reverse. */
  function Reversed<T>(s: seq<T>): (r: seq<T>)
    ensures |r| == |s|
    ensures forall i :: 0 <= i < |s| ==> r[i] == s[|s| - 1 - i]
  {
    if s == [] then [] else [s[|s| - 1]] + Reversed(s[..|s| - 1])
  }

  /** The ranking getLeaderboard reports for an ordering of the game's records. */
  function Ranking(children: seq<Record>, limit: nat): seq<Entry> {
    Reversed(Kept(LastN(children, limit)))
  }

  /**
   * getLeaderboard: the query delivers the last `limit` records of the
   * ascending highScore order; the listener drops malformed rows and reverses.
   */
  method GetLeaderboard(query: Query, limit: nat) returns (result: Fetch)
    requires limit > 0
    ensures query.Cancelled? ==> result == FetchError(query.message)
    ensures query.Ordered? ==> result == Fetched(Ranking(query.children, limit))
  {
    match query
    case Cancelled(message) =>
      result := FetchError(message);
    case Ordered(children) =>
      var rows := LastN(children, limit);
      var entries: seq<Entry> := [];
      var i := 0;
      while i < |rows|
        invariant 0 <= i <= |rows|
        invariant entries == Kept(rows[..i])
      {
        var row := rows[i];
        assert rows[..i + 1][..i] == rows[..i];
        if row.displayName.Some? && row.highScore.Some? {
          entries := entries + [Entry(row.userId, row.displayName.value, row.highScore.value)];
        }
        i := i + 1;
      }
      assert rows[..|rows|] == rows;
      result := Fetched(Reversed(entries));
  }

  /** `a` sorts no later than `b` in the store's highScore order (a missing highScore sorts first). */
  predicate NotAbove(a: Record, b: Record) {
    a.highScore.None? || (b.highScore.Some? && a.highScore.value <= b.highScore.value)
  }

  predicate Ascending(rows: seq<Record>) {
    forall i, j :: 0 <= i < j < |rows| ==> NotAbove(rows[i], rows[j])
  }

  lemma {:induction false} KeptAscending(rows: seq<Record>)
    requires Ascending(rows)
    ensures forall i, j :: 0 <= i < j < |Kept(rows)| ==> Kept(rows)[i].highScore <= Kept(rows)[j].highScore
  {
    if rows != [] {
      var init := rows[..|rows| - 1];
      var last := rows[|rows| - 1];
      assert Ascending(init) by {
        forall i, j | 0 <= i < j < |init| ensures NotAbove(init[i], init[j]) {
          assert init[i] == rows[i] && init[j] == rows[j];
        }
      }
      KeptAscending(init);
      if WellFormed(last) {
        KeptFromRows(init);
        var k := Kept(init);
        forall i | 0 <= i < |k| ensures k[i].highScore <= last.highScore.value {
          assert FromRow(init, k[i]);
          var m :| 0 <= m < |init| && WellFormed(init[m]) && k[i] == EntryOf(init[m]);
          assert init[m] == rows[m];
          assert NotAbove(rows[m], rows[|rows| - 1]);
        }
      }
    }
  }

  /** A slice of an ascending ordering is ascending. */
  lemma LastNAscending(rows: seq<Record>, n: nat)
    requires Ascending(rows)
    ensures Ascending(LastN(rows, n))
  {
    var r := LastN(rows, n);
    forall i, j | 0 <= i < j < |r| ensures NotAbove(r[i], r[j]) {
      assert r[i] == rows[|rows| - |r| + i] && r[j] == rows[|rows| - |r| + j];
    }
  }

  /**
   * Over an ascending ordering, the ranking holds at most `limit` entries, each
   * from a well-formed record, in descending highScore order.
   */
  lemma RankingDescending(children: seq<Record>, limit: nat)
    requires Ascending(children)
    ensures |Ranking(children, limit)| <= limit
    ensures forall i, j :: 0 <= i < j < |Ranking(children, limit)| ==>
      Ranking(children, limit)[i].highScore >= Ranking(children, limit)[j].highScore
  {
    var rows := LastN(children, limit);
    LastNAscending(children, limit);
    KeptAscending(rows);
    var k := Kept(rows);
    var r := Ranking(children, limit);
    forall i, j | 0 <= i < j < |r| ensures r[i].highScore >= r[j].highScore {
      assert r[i] == k[|k| - 1 - i] && r[j] == k[|k| - 1 - j];
    }
  }

  /**
   * When every record is well-formed and the ordering ascending, the ranking is
   * exactly the top min(limit, N) records, highest first.
   */
  lemma RankingIsTop(children: seq<Record>, limit: nat)
    requires forall k :: 0 <= k < |children| ==> WellFormed(children[k])
    ensures |Ranking(children, limit)| == if |children| <= limit then |children| else limit
    ensures forall i :: 0 <= i < |Ranking(children, limit)| ==>
      Ranking(children, limit)[i] == EntryOf(children[|children| - 1 - i])
  {
    var rows := LastN(children, limit);
    var n := |rows|;
    var d := |children| - n;
    forall k | 0 <= k < n ensures WellFormed(rows[k]) {
      assert rows[k] == children[d + k];
    }
    ReversedAllKept(rows);
    forall i | 0 <= i < n ensures Ranking(children, limit)[i] == EntryOf(children[|children| - 1 - i]) {
      assert rows[n - 1 - i] == children[d + (n - 1 - i)];
    }
  }

  lemma ReversedAllKept(rows: seq<Record>)
    requires forall k :: 0 <= k < |rows| ==> WellFormed(rows[k])
    ensures |Reversed(Kept(rows))| == |rows|
    ensures forall i :: 0 <= i < |rows| ==> Reversed(Kept(rows))[i] == EntryOf(rows[|rows| - 1 - i])
  {
    KeptAll(rows);
  }

  /** Three records {A:10, B:30, C:20}, limit 2: the ranking is [B:30, C:20]. */
  lemma RankingExample()
    ensures var a := Record(Some("A"), Some(10), Some("a"), None);
      var b := Record(Some("B"), Some(30), Some("b"), None);
      var c := Record(Some("C"), Some(20), Some("c"), None);
      Ranking([a, c, b], 2) == [EntryOf(b), EntryOf(c)]
  {
    var a := Record(Some("A"), Some(10), Some("a"), None);
    var b := Record(Some("B"), Some(30), Some("b"), None);
    var c := Record(Some("C"), Some(20), Some("c"), None);
    RankingIsTop([a, c, b], 2);
  }

  /** Filtering distributes over concatenation. */
  lemma {:induction false} KeptConcat(a: seq<Record>, b: seq<Record>)
    ensures Kept(a + b) == Kept(a) + Kept(b)
    decreases |b|
  {
    if b != [] {
      var init := b[..|b| - 1];
      assert (a + b)[..|a + b| - 1] == a + init;
      assert (a + b)[|a + b| - 1] == b[|b| - 1];
      KeptConcat(a, init);
    } else {
      assert a + b == a;
    }
  }

  /** A malformed record anywhere in the rows contributes no entry. */
  lemma KeptSplit(a: seq<Record>, bad: Record, b: seq<Record>)
    requires !WellFormed(bad)
    ensures Kept(a + [bad] + b) == Kept(a) + Kept(b)
  {
    assert Kept([bad]) == [] by {
      assert [bad][..0] == [];
    }
    KeptConcat(a, [bad]);
    KeptConcat(a + [bad], b);
  }

  /**
   * A record missing its displayName or highScore is dropped without failing
   * the fetch, wherever it sits inside the limitToLast window (a missing
   * highScore sorts first): it takes one slot of the limit and adds no entry.
   */
  lemma MalformedRecordDropped(pre: seq<Record>, bad: Record, post: seq<Record>, limit: nat)
    requires !WellFormed(bad) && |post| <= limit
    ensures Ranking(pre + [bad] + post, limit + 1) == Ranking(pre + post, limit)
  {
    var all := pre + [bad] + post;
    if |all| <= limit + 1 {
      assert LastN(all, limit + 1) == all;
      assert LastN(pre + post, limit) == pre + post;
      KeptSplit(pre, bad, post);
      KeptConcat(pre, post);
    } else {
      var d := |pre| - (limit - |post|);
      assert 0 < d <= |pre|;
      assert LastN(all, limit + 1) == pre[d..] + [bad] + post;
      assert LastN(pre + post, limit) == pre[d..] + post;
      KeptSplit(pre[d..], bad, post);
      KeptConcat(pre[d..], post);
    }
  }
}
