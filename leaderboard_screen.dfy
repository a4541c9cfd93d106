/**
 * The leaderboard screen: one highlighted game filter, a fetch of that game's
 * top 50, and the signed-in user's rank in the result.
 */
module LeaderboardScreen {
  import opened Wrappers
  import opened Identity
  import ScoreManager
  import Guess
  import Memory
  import Rps
  import TicTacToe

  const LIMIT: nat := 50
  const DEFAULT_GAME: string := "Guess"

  /** The filter buttons. Snake only shows "Coming Soon". */
  datatype Filter = GuessFilter | MemoryFilter | RpsFilter | TicTacToeFilter | SnakeFilter

  /** The game name a filter selects. */
  function GameOf(f: Filter): Option<string> {
    match f
    case GuessFilter => Some("Guess")
    case MemoryFilter => Some("Memory")
    case RpsFilter => Some("RPS")
    case TicTacToeFilter => Some("TicTacToe")
    case SnakeFilter => None
  }

  /** The four filters updateFilterButtons restyles. */
  const STYLED: set<Filter> := {GuessFilter, MemoryFilter, RpsFilter, TicTacToeFilter}

  datatype Style = Plain | Highlighted

  /** getLeaderboard(gameName, limit). */
  datatype Request = Request(game: string, limit: nat)

  /** What the screen toasts once the fetch completes. */
  datatype Notice = YourRank(rank: nat) | NotInTop | ErrorToast(message: string)

  const NO_SCORES_TEXT: string := "No scores yet!\nBe the first to play."
  const TIMED_OUT_TEXT: string := "Request timed out.\nCheck internet or database rules."

  /** The game name every filter of a game selects is the name that game saves its scores under. */
  lemma GameNamesMatchFilters()
    ensures GameOf(GuessFilter) == Some(Guess.GAME_NAME)
    ensures GameOf(MemoryFilter) == Some(Memory.GAME_NAME)
    ensures GameOf(RpsFilter) == Some(Rps.GAME_NAME)
    ensures GameOf(TicTacToeFilter) == Some(TicTacToe.GAME_NAME)
    ensures GameOf(SnakeFilter) == None
  {
  }

  /** The rank lookup: the first entry whose non-null userId equals `uid`, counted from 1. */
  method FindRank(entries: seq<ScoreManager.Entry>, uid: string) returns (rank: Option<nat>)
    ensures rank.Some? ==>
      1 <= rank.value <= |entries| && entries[rank.value - 1].userId == Some(uid)
      && forall j :: 0 <= j < rank.value - 1 ==> entries[j].userId != Some(uid)
    ensures rank.None? ==> forall j :: 0 <= j < |entries| ==> entries[j].userId != Some(uid)
  {
    var i := 0;
    while i < |entries|
      invariant 0 <= i <= |entries|
      invariant forall j :: 0 <= j < i ==> entries[j].userId != Some(uid)
    {
      if entries[i].userId != None && entries[i].userId.value == uid {
        return Some(i + 1);
      }
      i := i + 1;
    }
    rank := None;
  }

  /**
   * The rank toast of a non-empty list: nothing when nobody is signed in;
   * otherwise "Your Rank: r" for the first entry carrying the user's id, or
   * "not in the top 50" when no entry does.
   */
  ghost predicate RankTold(entries: seq<ScoreManager.Entry>, currentUser: Option<User>, notice: Option<Notice>) {
    match currentUser
    case None => notice == None
    case Some(user) =>
      && notice.Some?
      && (notice.value.YourRank? || notice.value.NotInTop?)
      && (notice.value.NotInTop? <==> forall j :: 0 <= j < |entries| ==> entries[j].userId != Some(user.uid))
      && (notice.value.YourRank? ==>
            1 <= notice.value.rank <= |entries| && entries[notice.value.rank - 1].userId == Some(user.uid)
            && forall j :: 0 <= j < notice.value.rank - 1 ==> entries[j].userId != Some(user.uid))
  }

  /** At most one notice fits a list and a user: the toast is determined by them. */
  lemma RankToldUnique(entries: seq<ScoreManager.Entry>, currentUser: Option<User>, n1: Option<Notice>, n2: Option<Notice>)
    requires RankTold(entries, currentUser, n1) && RankTold(entries, currentUser, n2)
    ensures n1 == n2
  {
  }

  /** The rank part of the success listener, for a non-empty list. */
  method RankToast(entries: seq<ScoreManager.Entry>, currentUser: Option<User>) returns (notice: Option<Notice>)
    ensures RankTold(entries, currentUser, notice)
  {
    notice := None;
    if currentUser.Some? {
      var rank := FindRank(entries, currentUser.value.uid);
      notice := Some(if rank.Some? then YourRank(rank.value) else NotInTop);
    }
  }

  class Screen {
    var currentGame: string
    var styles: map<Filter, Style>
    /** The progress bar is visible (and the list hidden) while a fetch is pending. */
    var loading: bool
    var emptyStateVisible: bool
    var emptyText: string
    /** The entries the list adapter holds. */
    var shown: seq<ScoreManager.Entry>

    /** Exactly the filter of the current game is highlighted; the others are plain. */
    ghost predicate Highlighting()
      reads this
    {
      forall f :: f in STYLED ==> f in styles && (styles[f] == Highlighted <==> GameOf(f) == Some(currentGame))
    }

    /** The activity before onCreate: the field default names Guess, the adapter is empty. */
    constructor ()
      ensures currentGame == DEFAULT_GAME && styles == map[] && shown == []
      ensures !loading && !emptyStateVisible && emptyText == ""
    {
      currentGame := DEFAULT_GAME;
      styles := map[];
      loading := false;
      emptyStateVisible := false;
      emptyText := "";
      shown := [];
    }

    /** onCreate: select the Guess leaderboard. */
    method OnCreate() returns (request: Request)
      modifies this
      ensures currentGame == DEFAULT_GAME && Highlighting() && styles.Keys == STYLED
      ensures loading && !emptyStateVisible && shown == old(shown) && emptyText == old(emptyText)
      ensures request == Request(DEFAULT_GAME, LIMIT)
    {
      request := SelectGame(DEFAULT_GAME);
    }

    /** updateFilterButtons: reset the four filters, then highlight the current game's. */
    method UpdateFilterButtons()
      modifies this`styles
      ensures Highlighting() && styles.Keys == STYLED
    {
      styles := map[GuessFilter := Plain, MemoryFilter := Plain, RpsFilter := Plain, TicTacToeFilter := Plain];
      if currentGame == "Guess" {
        styles := styles[GuessFilter := Highlighted];
      } else if currentGame == "Memory" {
        styles := styles[MemoryFilter := Highlighted];
      } else if currentGame == "RPS" {
        styles := styles[RpsFilter := Highlighted];
      } else if currentGame == "TicTacToe" {
        styles := styles[TicTacToeFilter := Highlighted];
      }
    }

    /** loadLeaderboard: show the progress bar, hide the empty state and request the top 50. */
    method LoadLeaderboard(game: string) returns (request: Request)
      modifies this`loading, this`emptyStateVisible
      ensures loading && !emptyStateVisible
      ensures request == Request(game, LIMIT)
    {
      loading := true;
      emptyStateVisible := false;
      request := Request(game, LIMIT);
    }

    /** selectGame: remember the game, restyle the filters and load its top 50. */
    method SelectGame(game: string) returns (request: Request)
      modifies this
      ensures currentGame == game && Highlighting() && styles.Keys == STYLED
      ensures loading && !emptyStateVisible && shown == old(shown) && emptyText == old(emptyText)
      ensures request == Request(game, LIMIT)
    {
      currentGame := game;
      UpdateFilterButtons();
      request := LoadLeaderboard(game);
    }

    /** A filter click: the four games select themselves; Snake only toasts "Coming Soon!". */
    method OnFilterClicked(f: Filter) returns (request: Option<Request>)
      modifies this
      ensures f == SnakeFilter ==>
        request == None && currentGame == old(currentGame) && styles == old(styles)
        && loading == old(loading) && emptyStateVisible == old(emptyStateVisible) && shown == old(shown)
        && emptyText == old(emptyText)
      ensures f != SnakeFilter ==>
        GameOf(f).Some? && currentGame == GameOf(f).value && request == Some(Request(currentGame, LIMIT))
        && styles.Keys == STYLED
        && (forall g :: g in STYLED ==> (styles[g] == Highlighted <==> g == f))
        && loading && !emptyStateVisible && shown == old(shown) && emptyText == old(emptyText)
    {
      if f == SnakeFilter {
        return None;
      }
      var r := SelectGame(GameOf(f).value);
      request := Some(r);
    }

    /**
     * Both listeners of loadLeaderboard. Either way the progress bar goes.
     * An error only toasts its message: the adapter keeps the previous list.
     * A result replaces the adapter's list; an empty one shows "No scores yet!",
     * a non-empty one hides the empty state and toasts the user's rank.
     */
    method OnFetched(result: ScoreManager.Fetch, currentUser: Option<User>) returns (notice: Option<Notice>)
      modifies this`loading, this`emptyStateVisible, this`emptyText, this`shown
      ensures !loading
      ensures result.FetchError? ==>
        notice == Some(ErrorToast(result.message))
        && shown == old(shown) && emptyStateVisible == old(emptyStateVisible) && emptyText == old(emptyText)
      ensures result.Fetched? ==> shown == result.entries && (emptyStateVisible <==> result.entries == [])
      ensures result.Fetched? && result.entries == [] ==> notice == None && emptyText == NO_SCORES_TEXT
      ensures result.Fetched? && result.entries != [] ==>
        RankTold(result.entries, currentUser, notice) && emptyText == old(emptyText)
    {
      loading := false;
      match result
      case FetchError(message) =>
        notice := Some(ErrorToast(message));
      case Fetched(entries) =>
        if entries == [] {
          emptyText := NO_SCORES_TEXT;
          emptyStateVisible := true;
          shown := entries;
          notice := None;
        } else {
          emptyStateVisible := false;
          shown := entries;
          notice := RankToast(entries, currentUser);
        }
    }

    /**
     * The ten-second safety timeout: if still loading, hide the progress bar,
     * show the timed-out text when the list is empty, and toast.
     */
    method OnTimeout() returns (toasted: bool)
      modifies this`loading, this`emptyStateVisible, this`emptyText
      ensures toasted == old(loading) && !loading
      ensures old(loading) && shown == [] ==> emptyStateVisible && emptyText == TIMED_OUT_TEXT
      ensures !(old(loading) && shown == []) ==>
        emptyStateVisible == old(emptyStateVisible) && emptyText == old(emptyText)
    {
      toasted := loading;
      if loading {
        loading := false;
        if |shown| == 0 {
          emptyText := TIMED_OUT_TEXT;
          emptyStateVisible := true;
        }
      }
    }
  }
}
