/** The round and score state machine of the planet guessing game: a fixed
    catalog of eight planets, a 3x3 grid of crop offsets over each planet's
    300x300 image, and a session that picks a target and three crops per
    round, lets the player pick a name and counts the guesses.

    The two random choices of the game enter as parameters: the index of the
    target planet and the permutation that the shuffle applies to the grid. */
module PlanetGuessingGame {

  // ---------------------------------------------------------------------
  // Catalog
  // ---------------------------------------------------------------------

  /** One catalog entry: the name is the answer key, the image an opaque path. */
  datatype Planet = Planet(name: string, image: string)

  /** The static, ordered catalog of the game. */
  const Planets: seq<Planet> := [
    Planet("Mercurio", "/img/mercurio.png?height=300&width=300"),
    Planet("Venus", "/img/venus.png?height=300&width=300"),
    Planet("Tierra", "/img/tierra.png?height=300&width=300"),
    Planet("Marte", "/img/marte.png?height=300&width=300"),
    Planet("Júpiter", "/img/jupiter.png?height=300&width=300"),
    Planet("Saturno", "/img/saturno.png?height=300&width=300"),
    Planet("Urano", "/img/urano.png?height=300&width=300"),
    Planet("Neptuno", "/img/neptuno.png?height=300&width=300")
  ]

  /** A string is a catalog name when some entry carries it. */
  predicate IsCatalogName(s: string) {
    exists p :: 0 <= p < |Planets| && Planets[p].name == s
  }

  /** The catalog has eight entries, no two with the same name, and no
      name is the empty string that stands for "nothing selected". */
  lemma CatalogWellFormed()
    ensures |Planets| == 8
    ensures forall i, j :: 0 <= i < j < |Planets| ==> Planets[i].name != Planets[j].name
    ensures !IsCatalogName("")
  {
  }

  /** The exact, case-sensitive comparison of a chosen label with the name
      of the target planet. Only a catalog name can match, so the empty
      "nothing selected" label never does. */
  function Matches(choice: string, target: nat): (r: bool)
    requires target < |Planets|
    ensures r ==> IsCatalogName(choice)
    ensures r ==> choice != ""
  {
    choice == Planets[target].name
  }

  /** Choosing the radio button of entry `p` matches target `k` exactly
      when it is the target's own entry. */
  lemma MatchesIffSameEntry(p: nat, k: nat)
    requires p < |Planets| && k < |Planets|
    ensures Matches(Planets[p].name, k) <==> p == k
  {
  }

  // ---------------------------------------------------------------------
  // Crop grid
  // ---------------------------------------------------------------------

  /** An offset of the visible window into a planet's image. */
  datatype Crop = Crop(x: int, y: int)

  const GridSize: nat := 3
  const CellSize: nat := 100
  /** The number of crops shown per round. */
  const CropCount: nat := 3

  /** Cell number `k` of the grid, counted row by row. */
  function Cell(k: int): (c: Crop) {
    Crop((k % GridSize) * CellSize, (k / GridSize) * CellSize)
  }

  /** All cells of the grid in row-major order. */
  function Grid(): (g: seq<Crop>) {
    seq(GridSize * GridSize, k => Cell(k))
  }

  predicate Distinct<T(==)>(s: seq<T>) {
    forall a, b :: 0 <= a < b < |s| ==> s[a] != s[b]
  }

  /** Column `j` of row `i` sits `j` cells to the right and `i` cells down. */
  lemma GridRowMajor(i: int, j: int)
    requires 0 <= i < GridSize && 0 <= j < GridSize
    ensures |Grid()| == 9
    ensures Grid()[i * GridSize + j] == Crop(j * CellSize, i * CellSize)
  {
  }

  /** The nine cells are pairwise distinct. */
  lemma GridDistinct()
    ensures Distinct(Grid())
  {
  }

  /** The nested loop of the round generator that pushes the grid cells. */
  method BuildGrid() returns (positions: seq<Crop>)
    ensures positions == Grid()
  {
    positions := [];
    var i := 0;
    while i < GridSize
      invariant 0 <= i <= GridSize
      invariant positions == Grid()[..i * GridSize]
    {
      var j := 0;
      while j < GridSize
        invariant 0 <= j <= GridSize
        invariant positions == Grid()[..i * GridSize + j]
      {
        GridRowMajor(i, j);
        positions := positions + [Crop(j * CellSize, i * CellSize)];
        j := j + 1;
      }
      i := i + 1;
    }
  }

  // ---------------------------------------------------------------------
  // Shuffle
  // ---------------------------------------------------------------------

  /** `perm` lists each of the positions 0 .. n-1 exactly once. */
  predicate IsPermutation(perm: seq<int>, n: nat) {
    |perm| == n
    && (forall k :: 0 <= k < n ==> 0 <= perm[k] < n)
    && (forall a, b :: 0 <= a < b < n ==> perm[a] != perm[b])
  }

  /** The order that the shuffle leaves behind: position `k` of the result
      holds the element that stood at `perm[k]`. It keeps the length, brings
      in no new element and keeps a duplicate-free sequence duplicate-free. */
  function Permute<T>(s: seq<T>, perm: seq<int>): (r: seq<T>)
    requires IsPermutation(perm, |s|)
    ensures |r| == |s|
    ensures forall x :: x in r ==> x in s
    ensures Distinct(s) ==> Distinct(r)
  {
    seq(|s|, k requires 0 <= k < |s| => s[perm[k]])
  }

  /** A duplicate-free sequence of numbers below `n` has at most `n` entries. */
  lemma {:induction false} Pigeonhole(p: seq<int>, n: nat)
    requires forall k :: 0 <= k < |p| ==> 0 <= p[k] < n
    requires Distinct(p)
    ensures |p| <= n
  {
    if |p| > 0 {
      assert 0 <= p[0] < n;
      if m :| 0 <= m < |p| && p[m] == n - 1 {
        var q := p[..m] + p[m + 1..];
        assert forall k :: 0 <= k < |q| ==> q[k] == (if k < m then p[k] else p[k + 1]);
        Pigeonhole(q, n - 1);
      } else {
        Pigeonhole(p, n - 1);
      }
    }
  }

  /** A permutation of 0 .. n-1 reaches every position. */
  lemma PermutationIsOnto(perm: seq<int>, n: nat, i: int)
    requires IsPermutation(perm, n)
    requires 0 <= i < n
    ensures i in perm
  {
    if i !in perm {
      var q := seq(n, k requires 0 <= k < n => if perm[k] > i then perm[k] - 1 else perm[k]);
      assert forall k :: 0 <= k < n ==> perm[k] != i;
      Pigeonhole(q, n - 1);
    }
  }

  /** Nothing is lost by the shuffle: every element of the input is still
      present in the shuffled sequence. */
  lemma PermuteKeepsAll<T>(s: seq<T>, perm: seq<int>, x: T)
    requires IsPermutation(perm, |s|)
    requires x in s
    ensures x in Permute(s, perm)
  {
    var i :| 0 <= i < |s| && s[i] == x;
    PermutationIsOnto(perm, |s|, i);
    var k :| 0 <= k < |perm| && perm[k] == i;
    assert Permute(s, perm)[k] == x;
  }

  /** The crops of a round: the first three cells of the shuffled grid.
      They are three distinct grid cells. */
  function RoundCrops(perm: seq<int>): (r: seq<Crop>)
    requires IsPermutation(perm, |Grid()|)
    ensures |r| == CropCount
    ensures forall c :: c in r ==> c in Grid()
    ensures Distinct(r)
  {
    GridDistinct();
    var shuffled := Permute(Grid(), perm);
    assert forall k :: 0 <= k < CropCount ==> shuffled[k] in shuffled;
    shuffled[..CropCount]
  }

  // ---------------------------------------------------------------------
  // Session
  // ---------------------------------------------------------------------

  /** The state of one game session. `currentPlanet` is the index of the
      target in `Planets`; `selectedPlanet` is "" while nothing is chosen. */
  class Game {
    var currentPlanet: nat
    var score: int
    var totalGuesses: int
    var selectedPlanet: string
    var showResult: bool
    var cropPositions: seq<Crop>
    var radioDisabled: bool

    /** The value of `totalGuesses` when the current round began. */
    ghost var roundStart: int
    /** Whether a round has been generated since the session began. */
    ghost var mounted: bool

    /** The invariant of every reachable state. */
    ghost predicate Valid()
      reads this
    {
      currentPlanet < |Planets|
      && 0 <= score <= totalGuesses
      && showResult == radioDisabled
      && (selectedPlanet == "" || IsCatalogName(selectedPlanet))
      && |cropPositions| == CropCount
      && (forall c :: c in cropPositions ==> c in Grid())
      && (mounted ==> Distinct(cropPositions))
      // at most one guess is counted per round, and only once it is revealed
      && totalGuesses == roundStart + (if showResult then 1 else 0)
    }

    /** The rule of the guess button: enabled with a selection in a round
        that is not revealed. In a reachable state it is then enabled only
        while no guess of the round has been counted. */
    predicate GuessEnabled()
      reads this
      ensures GuessEnabled() && Valid() ==> totalGuesses == roundStart && IsCatalogName(selectedPlanet)
    {
      selectedPlanet != "" && !showResult && !radioDisabled
    }

    /** The target planet of the current round. */
    function Target(): (p: Planet)
      reads this
      requires Valid()
      ensures p in Planets
    {
      Planets[currentPlanet]
    }

    /** The initial state, before the mount-time round is generated. */
    constructor ()
      ensures Valid() && !mounted
      ensures currentPlanet == 0 && score == 0 && totalGuesses == 0
      ensures selectedPlanet == "" && !showResult && !radioDisabled
      ensures cropPositions == [Crop(0, 0), Crop(0, 0), Crop(0, 0)]
    {
      currentPlanet := 0;
      score := 0;
      totalGuesses := 0;
      selectedPlanet := "";
      showResult := false;
      cropPositions := [Crop(0, 0), Crop(0, 0), Crop(0, 0)];
      radioDisabled := false;
      roundStart := 0;
      mounted := false;
      assert Crop(0, 0) == Grid()[0];
    }

    /** Starts a round with target `k` and the shuffle `perm` of the grid.
        The score counters are kept. */
    method NewRound(k: nat, perm: seq<int>)
      requires Valid()
      requires k < |Planets|
      requires IsPermutation(perm, |Grid()|)
      modifies this
      ensures Valid() && mounted
      ensures currentPlanet == k
      ensures selectedPlanet == "" && !showResult && !radioDisabled
      ensures cropPositions == RoundCrops(perm)
      ensures score == old(score) && totalGuesses == old(totalGuesses)
    {
      currentPlanet := k;
      selectedPlanet := "";
      showResult := false;
      radioDisabled := false;

      var positions := BuildGrid();
      var shuffled := Permute(positions, perm);
      cropPositions := shuffled[..CropCount];

      roundStart := totalGuesses;
      mounted := true;
    }

    /** The radio group: choosing entry `p` replaces the selection while the
        group is enabled and does nothing once the round is revealed. */
    method SelectPlanet(p: nat)
      requires Valid()
      requires p < |Planets|
      modifies this`selectedPlanet
      ensures Valid()
      ensures selectedPlanet == if old(radioDisabled) then old(selectedPlanet) else Planets[p].name
    {
      if !radioDisabled {
        selectedPlanet := Planets[p].name;
      }
    }

    /** The guess handler: counts the guess, scores it when the selection
        is the target's name, and reveals the round. */
    method HandleGuess()
      requires Valid()
      requires GuessEnabled()
      modifies this`totalGuesses, this`score, this`showResult, this`radioDisabled
      ensures Valid()
      ensures totalGuesses == old(totalGuesses) + 1
      ensures score == old(score) + (if Matches(selectedPlanet, currentPlanet) then 1 else 0)
      ensures showResult && radioDisabled
    {
      totalGuesses := totalGuesses + 1;
      if selectedPlanet == Planets[currentPlanet].name {
        score := score + 1;
      }
      showResult := true;
      radioDisabled := true;
    }

    /** The guess button: runs the handler when enabled and does nothing
        otherwise. */
    method PressGuess()
      requires Valid()
      modifies this`totalGuesses, this`score, this`showResult, this`radioDisabled
      ensures Valid()
      ensures old(GuessEnabled()) ==>
        totalGuesses == old(totalGuesses) + 1
        && score == old(score) + (if Matches(selectedPlanet, currentPlanet) then 1 else 0)
        && showResult && radioDisabled
      ensures !old(GuessEnabled()) ==>
        totalGuesses == old(totalGuesses) && score == old(score)
        && showResult == old(showResult) && radioDisabled == old(radioDisabled)
    {
      if GuessEnabled() {
        HandleGuess();
      }
    }
  }
}
