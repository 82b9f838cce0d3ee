# Planet guessing game: round and score state machine

The game shows three circular crops of one planet's 300x300 image and asks
the player to pick the planet's name from a fixed catalog of eight. This
project models the logic behind the page component:

- the catalog `Planets` (eight entries, each a name and an image path);
- the crop grid: nine offsets `(j*100, i*100)` for rows `i` and columns `j`
  in `0..2`, built by a nested loop that appends them in row-major order;
- the shuffle of that grid, of which the first three cells become the
  round's crops;
- the session (`Game`), a class with the component's state fields
  `currentPlanet` (an index into the catalog), `score`, `totalGuesses`,
  `selectedPlanet` (`""` while nothing is chosen), `showResult`,
  `cropPositions` and `radioDisabled`, and its commands: `NewRound`,
  `SelectPlanet` (the radio group), `HandleGuess` (the guess handler) and
  `PressGuess` (the guess button with its enablement rule).

`Game.Valid()` is the invariant of every reachable state: the target is a
catalog entry, `0 <= score <= totalGuesses`, `showResult == radioDisabled`,
the selection is empty or a catalog name, there are three crops and each is
a grid cell, the crops are pairwise distinct once the first round has been
generated, and at most one guess is counted per round (a ghost field
`roundStart` records `totalGuesses` at the start of the round, and the
difference is 1 exactly when the round is revealed). Every command keeps it.

The two random choices enter as parameters: `NewRound(k, perm)` takes the
index `k` of the target planet and a permutation `perm` of the nine cell
positions (`IsPermutation`), standing for the shuffle by a random
comparator, whose resulting order is engine-defined and is therefore
treated as an arbitrary permutation. `Permute` applies it; it is proved to
keep every element, to add none and to keep a duplicate-free sequence
duplicate-free.

The module `GameScenarios` drives sessions through the commands as the page
does (the mount-time round, then clicks), and proves what they end in.

The source keeps the guess rule in the page markup: the guess button is
disabled when nothing is selected or the round is revealed, and the radio
group is disabled once revealed. `HandleGuess` requires that rule, as the
handler is only reachable through the enabled button; `PressGuess` and
`SelectPlanet` model the disabled controls as no-ops. A radio button can
only carry a catalog name, so `SelectPlanet` takes a catalog index: the
source has no path on which an unknown name is rejected, and neither does
the model.

## Model

| member | source | states |
|---|---|---|
| PlanetGuessingGame.CatalogWellFormed | components/planet-guessing-game.tsx:18-27 | the catalog has 8 entries with pairwise distinct names, none of them the empty "no selection" string |
| PlanetGuessingGame.MatchesIffSameEntry | components/planet-guessing-game.tsx:72 | the exact name comparison of the radio value of entry `p` with target `k` holds if and only if `p == k` |
| PlanetGuessingGame.Matches | components/planet-guessing-game.tsx:72 | the exact, case-sensitive name test of the guess handler, used by the contracts of `HandleGuess` and `PressGuess`; a match implies the choice is a non-empty catalog name |
| PlanetGuessingGame.GridRowMajor | components/planet-guessing-game.tsx:53-61 | the grid has 9 cells and cell `3*i + j` is `{x: j*100, y: i*100}` for `i, j` in 0..2 |
| PlanetGuessingGame.GridDistinct | components/planet-guessing-game.tsx:53-61 | the 9 grid cells are pairwise distinct |
| PlanetGuessingGame.BuildGrid | components/planet-guessing-game.tsx:55-61 | the nested loop that pushes `{x: j*cellSize, y: i*cellSize}` produces exactly the row-major grid |
| PlanetGuessingGame.Permute | components/planet-guessing-game.tsx:63-64 | the shuffled sequence has the input's length, contains only input elements, and is duplicate-free when the input is |
| PlanetGuessingGame.PermuteKeepsAll | components/planet-guessing-game.tsx:63-64 | every element of the input is still present after the shuffle (a permutation is onto) |
| PlanetGuessingGame.RoundCrops | components/planet-guessing-game.tsx:63-65 | the first three cells of the shuffled grid are three pairwise distinct grid cells |
| PlanetGuessingGame.Game.Target | components/planet-guessing-game.tsx:47-48 | the current target is an entry of the catalog |
| PlanetGuessingGame.Game.constructor | components/planet-guessing-game.tsx:30-40 | the initial state: target `planets[0]`, score and guesses 0, no selection, not revealed, radio enabled, three `{0,0}` crops; the invariant holds, crops not yet distinct |
| PlanetGuessingGame.Game.NewRound | components/planet-guessing-game.tsx:46-68 | target is `planets[k]`, selection cleared, not revealed, radio enabled, crops are the round's three distinct grid cells, score and guess count unchanged, invariant kept |
| PlanetGuessingGame.Game.SelectPlanet | components/planet-guessing-game.tsx:124-138 | while the radio group is enabled the selection becomes the chosen entry's name; once revealed it does not change; nothing else changes |
| PlanetGuessingGame.Game.GuessEnabled | components/planet-guessing-game.tsx:153 | the guess button's enable rule (selection non-empty, not revealed, radio enabled), used by the contracts of `HandleGuess` and `PressGuess`; in a valid state it holds only while no guess of the round has been counted and the selection is a catalog name |
| PlanetGuessingGame.Game.HandleGuess | components/planet-guessing-game.tsx:70-77 | the guess count rises by exactly 1, the score rises by 1 exactly when the selection equals the target's name and is otherwise unchanged, and the round is revealed and locked; the selection, target and crops are unchanged |
| PlanetGuessingGame.Game.PressGuess | components/planet-guessing-game.tsx:151-153 | when enabled (selection non-empty, not revealed) it acts as the handler; otherwise nothing changes, so a second press in a round counts nothing |
| GameScenarios.GuessMarte | components/planet-guessing-game.tsx:42-77 | mount round, choose "Marte", press guess: one guess, revealed, score 1 exactly when the target was Marte |
| GameScenarios.GuessWithoutSelection | components/planet-guessing-game.tsx:151-153 | pressing guess with nothing chosen counts nothing and reveals nothing |
| GameScenarios.GuessTwiceThenReselect | components/planet-guessing-game.tsx:124-153 | a second press and a later choice after the reveal change neither counters nor the locked-in selection |
| GameScenarios.TwoRounds | components/planet-guessing-game.tsx:46-77 | over two rounds the guess count is 2 and the score counts exactly the rounds whose choice was the target; the second round's crops are its own shuffle's |

## Left out

- Rendering: the JSX markup, styling, header images, the result message text and the explanatory dialog are presentation only.
- Turning a crop into CSS `backgroundPosition`/`backgroundSize` is rendering, not logic.
- `Math.random`: the target index and the shuffle are parameters; the uniformity of those choices (floating point, probability) is not modelled.
- The random-comparator sort: its engine-specific behaviour is not modelled, only that its result is some permutation of the nine cells; the in-place rearrangement of the JavaScript array is modelled as a new sequence.
- React hook semantics (mount timing of the effect, batched state updates, stale closures): each handler is one atomic transition, and the mount-time round is a `NewRound` call the client makes after the constructor.
- Rejecting names outside the catalog: the source has no such path, since only catalog names are radio values; selection is by catalog index.
