/**
 * `Kaninator.main`: the state machine. Every game state returns a code;
 * the switch turns the code into a slot of the four-slot state array
 * (game, settings, high scores, main menu), with two fall-throughs
 * (resuming without a game starts a new one; game over records the score
 * and shows the high scores), and the loop ends at a negative code.
 */
module Dispatch {
  import opened Wrappers

  const Sentinel: int := -1
  const NewGame: int := 0
  const ResumeGame: int := 1
  const SettingsCode: int := 2
  const HighScores: int := 3
  const MainMenu: int := 4
  const GameOver: int := 5

  /** The states the four slots hold, in slot order. */
  datatype Screen = Playing | SettingsScreen | ScoresScreen | MainScreen

  const Slots: seq<Screen> := [Playing, SettingsScreen, ScoresScreen, MainScreen]

  /**
   * One pass of the switch: the slot whose `doState` runs next, whether
   * slot 0 then holds a game, and whether the finished game's score was
   * added to the high-score list.
   */
  datatype Outcome = Outcome(slot: int, hasGame: bool, scored: bool)

  /** The screen each code asks for, by name. */
  function Intended(code: int, created: bool): Option<Screen> {
    if code == NewGame || code == ResumeGame then Some(if created then Playing else MainScreen)
    else if code == SettingsCode then Some(SettingsScreen)
    else if code == HighScores || code == GameOver then Some(ScoresScreen)
    else if code == MainMenu then Some(MainScreen)
    else None
  }

  /**
   * The switch for a code the loop admits (not negative). `hasGame` says
   * whether slot 0 holds a game; `created` whether `new Game(...)` would
   * succeed rather than throw `GameException`. `None` is a run-time
   * failure: game over without a game dereferences `null`, and a code
   * above 5 indexes past the array.
   */
  function Switch(code: int, hasGame: bool, created: bool): (r: Option<Outcome>)
    requires code > Sentinel
    ensures r.None? <==> code > GameOver || (code == GameOver && !hasGame)
    ensures r.Some? ==> 0 <= r.value.slot < |Slots|
    ensures r.Some? && r.value.slot == 0 ==> r.value.hasGame
    ensures r.Some? ==> (r.value.scored <==> code == GameOver)
    ensures r.Some? && code == GameOver ==> !r.value.hasGame
    ensures r.Some? && code != GameOver && !(code <= ResumeGame && !hasGame && created) ==> r.value.hasGame == hasGame
    ensures r.Some? ==> Intended(code, created) != None
  {
    if code == ResumeGame && hasGame then
      Some(Outcome(code - 1, hasGame, false))
    else if code == ResumeGame || code == NewGame then
      if created then Some(Outcome(NewGame, true, false))
      else Some(Outcome(MainMenu - 1, hasGame, false))
    else if code == GameOver then
      if hasGame then Some(Outcome(HighScores - 1, false, true)) else None
    else if code - 1 < |Slots| then
      Some(Outcome(code - 1, hasGame, false))
    else None
  }

  /**
   * The switch sends every code to the screen it names: resuming an
   * existing game goes back to it, starting (or resuming without a game)
   * goes to the new game or, when it cannot be created, to the main menu.
   */
  lemma SwitchMeetsIntent(code: int, hasGame: bool, created: bool)
    requires code > Sentinel
    ensures var r := Switch(code, hasGame, created);
      r.Some? ==> Slots[r.value.slot] == if code == ResumeGame && hasGame then Playing
                                        else Intended(code, created).value
    ensures code <= MainMenu ==> Switch(code, hasGame, created).Some?
  {
  }

  /** The position of the first negative code, or the length when there is none. */
  function StopAt(codes: seq<int>): (k: nat)
    ensures k <= |codes| && (k < |codes| ==> codes[k] <= Sentinel)
    ensures forall i :: 0 <= i < k ==> codes[i] > Sentinel
    decreases |codes|
  {
    if |codes| == 0 || codes[0] <= Sentinel then 0 else 1 + StopAt(codes[1..])
  }

  /**
   * The loop from `code` on: `returned[i]` is what the i-th state run
   * returns, `created[i]` whether a game could be created in that pass.
   * The result lists the slots run, or `None` when a pass fails.
   */
  function Visits(code: int, hasGame: bool, returned: seq<int>, created: seq<bool>): (r: Option<seq<int>>)
    requires |created| == |returned| + 1
    ensures code <= Sentinel ==> r == Some([])
    ensures r.Some? ==> forall i :: 0 <= i < |r.value| ==> 0 <= r.value[i] < |Slots|
    decreases |returned|
  {
    if code <= Sentinel then Some([])
    else match Switch(code, hasGame, created[0])
      case None => None
      case Some(o) =>
        if |returned| == 0 then Some([o.slot])
        else match Visits(returned[0], o.hasGame, returned[1..], created[1..])
          case None => None
          case Some(rest) => Some([o.slot] + rest)
  }

  /**
   * A run that does not fail runs one state for the starting code and one
   * for every returned code before the first negative one: the loop ends
   * only at the sentinel.
   */
  lemma {:induction false} VisitsStopAtSentinel(code: int, hasGame: bool, returned: seq<int>, created: seq<bool>)
    requires |created| == |returned| + 1 && code > Sentinel
    requires Visits(code, hasGame, returned, created).Some?
    ensures |Visits(code, hasGame, returned, created).value| == 1 + StopAt(returned)
    decreases |returned|
  {
    if |returned| > 0 && returned[0] > Sentinel {
      var o := Switch(code, hasGame, created[0]).value;
      VisitsStopAtSentinel(returned[0], o.hasGame, returned[1..], created[1..]);
    }
  }

  /** `main` starts at the main menu without a game: the first state run is the main menu. */
  lemma StartsAtMainMenu(returned: seq<int>, created: seq<bool>)
    requires |created| == |returned| + 1
    requires Visits(MainMenu, false, returned, created).Some?
    ensures |Visits(MainMenu, false, returned, created).value| > 0
    ensures Slots[Visits(MainMenu, false, returned, created).value[0]] == MainScreen
  {
  }

  /** Codes the menus return (the sentinel and 0 to 4) never make a pass fail. */
  lemma KnownCodesRun(returned: seq<int>, created: seq<bool>)
    requires |created| == |returned| + 1
    requires forall i :: 0 <= i < |returned| ==> Sentinel <= returned[i] <= MainMenu
    ensures Visits(MainMenu, false, returned, created).Some?
  {
    KnownCodesRunFrom(MainMenu, false, returned, created);
  }

  lemma {:induction false} KnownCodesRunFrom(code: int, hasGame: bool, returned: seq<int>, created: seq<bool>)
    requires |created| == |returned| + 1 && code <= MainMenu
    requires forall i :: 0 <= i < |returned| ==> Sentinel <= returned[i] <= MainMenu
    ensures Visits(code, hasGame, returned, created).Some?
    decreases |returned|
  {
    if code > Sentinel && |returned| > 0 {
      var o := Switch(code, hasGame, created[0]).value;
      KnownCodesRunFrom(returned[0], o.hasGame, returned[1..], created[1..]);
    }
  }
}
