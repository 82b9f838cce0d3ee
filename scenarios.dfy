/** Sessions driven through the game's commands, as the page drives them:
    the mount-time round, then the player's clicks. What each one returns is
    proved from the contracts of the commands alone. */
module GameScenarios {
  import opened PlanetGuessingGame

  /** A first round followed by choosing "Marte" (entry 3) and pressing the
      guess button scores exactly when the target was Marte. */
  method GuessMarte(k: nat, perm: seq<int>) returns (score: int, total: int, revealed: bool)
    requires k < |Planets|
    requires IsPermutation(perm, |Grid()|)
    ensures total == 1 && revealed
    ensures score == if k == 3 then 1 else 0
  {
    var g := new Game();
    g.NewRound(k, perm);
    g.SelectPlanet(3);
    MatchesIffSameEntry(3, k);
    g.PressGuess();
    score, total, revealed := g.score, g.totalGuesses, g.showResult;
  }

  /** Pressing the guess button before anything is chosen counts nothing
      and reveals nothing. */
  method GuessWithoutSelection(k: nat, perm: seq<int>) returns (score: int, total: int, revealed: bool)
    requires k < |Planets|
    requires IsPermutation(perm, |Grid()|)
    ensures score == 0 && total == 0 && !revealed
  {
    var g := new Game();
    g.NewRound(k, perm);
    g.PressGuess();
    score, total, revealed := g.score, g.totalGuesses, g.showResult;
  }

  /** A second press in the same round, and a change of choice after the
      reveal, alter neither the counters nor the locked-in selection. */
  method GuessTwiceThenReselect(k: nat, perm: seq<int>, p: nat, q: nat)
    returns (score: int, total: int, selected: string)
    requires k < |Planets|
    requires IsPermutation(perm, |Grid()|)
    requires p < |Planets| && q < |Planets|
    ensures total == 1
    ensures score == if p == k then 1 else 0
    ensures selected == Planets[p].name
  {
    var g := new Game();
    g.NewRound(k, perm);
    g.SelectPlanet(p);
    MatchesIffSameEntry(p, k);
    g.PressGuess();
    g.PressGuess();
    g.SelectPlanet(q);
    score, total, selected := g.score, g.totalGuesses, g.selectedPlanet;
  }

  /** Over two rounds, each guessed once, two guesses are counted and the
      score counts the rounds whose choice was the target; the second
      round shows the crops of its own shuffle. */
  method TwoRounds(k1: nat, k2: nat, perm1: seq<int>, perm2: seq<int>, p1: nat, p2: nat)
    returns (score: int, total: int, crops: seq<Crop>)
    requires k1 < |Planets| && k2 < |Planets|
    requires IsPermutation(perm1, |Grid()|) && IsPermutation(perm2, |Grid()|)
    requires p1 < |Planets| && p2 < |Planets|
    ensures total == 2
    ensures score == (if p1 == k1 then 1 else 0) + (if p2 == k2 then 1 else 0)
    ensures crops == RoundCrops(perm2)
  {
    var g := new Game();
    g.NewRound(k1, perm1);
    g.SelectPlanet(p1);
    MatchesIffSameEntry(p1, k1);
    g.PressGuess();
    g.NewRound(k2, perm2);
    crops := g.cropPositions;
    g.SelectPlanet(p2);
    MatchesIffSameEntry(p2, k2);
    g.PressGuess();
    score, total := g.score, g.totalGuesses;
  }
}
