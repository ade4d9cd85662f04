# Scyther setup randomizer: a Dafny model of its selection and scoring core

Scyther is a browser page that sets up a game of Scythe: given a player count
and a few toggles, it hands every player a distinct faction and a distinct
player board (player mat). In solo play it adds a faction for the automa. It can
also show, per faction, a "proximity" score: how close the other drawn factions
sit to it on the fixed ring of faction home bases.

This project models the logic of `scyther.js` in Dafny:

- `Catalog.dfy`: the catalog entries and the two catalog filters
  (`getFactions`, `getPlayerBoards`). They copy the catalog, or keep only its
  base-game entries when the Invaders-from-Afar toggle is off. The toggle is a
  boolean parameter.
- `Distance.dfy`: `factionDistance`, the shorter way round a ring whose size
  is the number of factions in the whole, unfiltered catalog.
- `Proximity.dfy`: `proximityScore`, up to the floating-point step. The model
  keeps its two exact integer parts: the sum of squared distances, and the
  divisor, which is one less than the number of entries.
- `Draws.dfy`: drawing without replacement. An entry is taken at an index and
  spliced out of the pool, as `splice(idx, 1)` does.
- `Boards.dfy`: `pickBoards`, split into `Assign`, the drawing loop over the
  two pools, and `PickBoards`, which filters the catalog and calls it.
- `Populate.dfy`: the scoring half of `populateBoards`, which draws a setup and
  scores every entry against it.

`Math.random` is replaced by caller-supplied indices. `factionDraws` lists the
indices drawn into the faction pool, in order; in solo play the second one is
the automa's. `boardDraws` lists the indices drawn into the board pool. Each
index must lie inside the pool as it stands at that draw. This is the guarantee
`getIntInRange(0, length - 1)` gives when the pool is not empty.

The catalog arrays (`DATA.factions`, `DATA.playerBoards`) are Dafny arrays.
`PickBoards` and `PopulateBoards` have no `modifies` clause, so Dafny's frame
rule proves that neither of them changes the catalog. The pools are sequence
values, and the loop replaces its own copies as they shrink.

Two facts about the code shape the model:

- `pickBoards` calls `getFactions` and `getPlayerBoards` itself
  (scyther.js:95-96), so it draws from the catalog after the filter has been
  applied. `PickBoards` does the same.
- Nothing in `pickBoards` checks that a pool still has an entry. When a pool
  is empty, `getIntInRange(0, -1)` gives 0, and indexing the empty array binds
  `undefined` (scyther.js:101-103, 105-107, 114). The model requires in-range draws
  instead (see "Left out").

## Model

| member | source | states |
|---|---|---|
| `Catalog.Filter` | scyther.js:79-81 | `filter` keeps exactly the elements the test accepts and is never longer than its input |
| `Catalog.FilterConcat` | scyther.js:79-81 | filtering keeps order: filtering a concatenation is concatenating the filtered parts |
| `Catalog.FilterAllKept` | scyther.js:79-81 | a list in which every element passes comes through the filter unchanged |
| `Catalog.FilterDistinct` | scyther.js:79-81 | filtering a list without repeats gives a list without repeats |
| `Catalog.GetFactions` | scyther.js:74-82 | with the toggle on, the offered factions are the catalog; with it off, a faction is offered exactly when it is in the catalog and not Invaders-only |
| `Catalog.GetPlayerBoards` | scyther.js:84-92 | the same for player boards |
| `Catalog.GetFactionsInOrder` | scyther.js:79-81 | with the toggle off, the offered factions keep catalog order; a catalog without Invaders-only factions is offered whole |
| `Catalog.GetPlayerBoardsInOrder` | scyther.js:89-91 | the same for player boards |
| `Catalog.OfferedDistinct` | scyther.js:74-92 | a faction catalog without repeated entries offers no repeated faction, and a board catalog without repeats offers no repeated board, whether the toggle is on or off |
| `Distance.FactionDistance` | scyther.js:31-40 | for locations on the ring, the distance is between 0 and half the ring (rounded down), and it is 0 exactly when the two locations are equal |
| `Distance.DistanceSymmetric` | scyther.js:32-35 | the distance does not depend on the order of its arguments |
| `Distance.DistanceIsShortestWalk` | scyther.js:31-40 | walking the distance one way or the other round the ring (modulo its size) leads from one faction to the other, and no shorter walk does |
| `Distance.DistanceExamples` | scyther.js:31-40 | on a ring of 10, locations 2 and 8 are 4 apart, and 0 and 9 are 1 apart |
| `Proximity.SumOfSquares` | scyther.js:44-53 | the sum of squared distances to every entry is at most the number of entries times the square of half the ring |
| `Proximity.SumOfSquaresOmitsSelf` | scyther.js:44-53 | an entry at the target's own location adds nothing, so the sum is the same with that entry removed |
| `Proximity.ProximityMeanSquare` | scyther.js:42-56 | with two or more entries, the divisor is one less than the entry count and at least 1; when the target is one of the entries, the score is at most half the ring |
| `Proximity.SelectionScores` | scyther.js:248-252 | when proximity is on, every entry of a setup that does not have exactly one entry gets a defined score, bounded by half the ring; when it is off, none gets a score |
| `Proximity.ProximityExample` | scyther.js:42-56 | factions at 1, 3 and 6 on a ring of 8: the faction at 1 gets a sum of squares of 13 over a divisor of 2 |
| `Draws.RemoveAt` | scyther.js:103 | `splice(idx, 1)` removes exactly one occurrence of the element at `idx`; the pool shrinks by one |
| `Draws.Remaining` | scyther.js:101-107 | after k in-range draws, the pool has lost exactly k entries |
| `Draws.Picked` | scyther.js:101-106 | k draws take exactly k entries |
| `Draws.DrawStep` | scyther.js:101-107 | one more draw takes the entry at its index in what is left and splices that entry out |
| `Draws.PickedAndRemaining` | scyther.js:101-107 | the entries taken and the entries left make up exactly the pool, as a multiset |
| `Draws.PickedDistinct` | scyther.js:101-109 | from a pool without repeats, no entry is taken twice, and no taken entry is still in the pool |
| `Draws.PickedFromPool` | scyther.js:101-106 | every entry taken is an entry of the pool |
| `Draws.PositionsInRange` | scyther.js:101-107 | drawing from the list of a pool's positions takes and leaves only positions of that pool |
| `Draws.DrawsArePositions` | scyther.js:101-107 | the entries the draws take and leave are exactly the pool's entries at the positions the same draws take and leave from the list of positions |
| `Draws.PositionsDrawnOnce` | scyther.js:101-107 | no position of the pool is drawn twice, even when the pool repeats a value |
| `Boards.Assign` | scyther.js:98-118 | the setup has one human entry per player, first, and after them one automa entry exactly in solo play; its factions are the faction draws and its human boards are the board draws, in order |
| `Boards.HumanDraw` | scyther.js:100-110 | one turn of the loop takes the next faction and the next board from what is left, and keeps the loop invariant |
| `Boards.AutomaDraw` | scyther.js:112-116 | the automa's faction is the next draw from the faction pool the human left, and it adds no board |
| `Boards.SetupFromPools` | scyther.js:100-116 | every drawn faction and board comes from its pool; if a pool has no repeats, nothing from it is handed out twice |
| `Boards.PickBoards` | scyther.js:94-119 | as `Assign`, with catalog-level guarantees: every entry is a catalog entry, none is Invaders-only with the toggle off, no faction or board repeats if the catalog has no repeats, and in solo play the automa's faction differs from the player's |
| `Populate.CatalogMembersOnRing` | scyther.js:36 | factions taken from the catalog sit on the ring whose size is the catalog's length |
| `Populate.PopulateBoards` | scyther.js:246-253 | the setup is the `pickBoards` draw: humans first, its factions and human boards are the draws from the filtered catalog. Its scores are `SelectionScores` of that setup on the ring of the whole catalog, so each entry's faction is scored against the whole setup exactly when proximity is on, with a positive divisor and a score at most half the ring |

## Left out

- The rendering and the DOM wiring: `render*`, `populate*` apart from their
  scoring, `show*`, `populatePlayerCountButtons`, and event registration. They
  only read and write the page.
- The reads of the page's toggles (`should*`, `withProximityScores`). They are
  boolean parameters instead.
- `getPlayerCount` parses the checked radio button. Its result is a `nat`
  parameter. When no button is checked, `parseInt` gives `NaN`; the loop then
  does not run and the result is empty, which is what player count 0 does in
  the model.
- `Math.random` in `getIntInRange` and `pickFromArray`. The random indices are
  supplied by the caller instead. The uniformity of the draws cannot be stated
  here.
- `Math.sqrt`, the floating-point division by `others.length - 1`, and the
  `toFixed` rounding for display. These are floating point. The model keeps the
  exact integer sum of squares and the divisor.
- The airship, resolution and building-bonus draws (`renderAirshipLabel`,
  `populateGlobalSection`). They are uniform `pickFromArray` draws from
  fixed lists. `renderAirshipLabel` makes two of them: a passive ability, and an
  aggressive ability (scyther.js:195, 210). In solo play, it first keeps only
  the aggressive abilities marked `supportedByAutoma` (scyther.js:201-206).
  None of these draws feeds the setup or its scores.
- Settings persistence, the service worker and the `state` helper. These are
  I/O; `state` is not part of this model.
- The global `out` variable written by `pickBoards`. It is a local result here.
- Boards.PickBoards: requires every draw to fall inside its pool. This also
  requires at least `playerCount` factions and boards, and in solo play a
  second faction for the automa. When a pool runs dry, the source binds
  `undefined` for that entry; the model does not describe that behaviour. The
  player-count buttons (scyther.js:287-289) never offer more players than
  there are factions on offer. Nothing keeps the board pool or the automa's
  draw from running dry.
- Boards.Assign: the same precondition on the draws as `PickBoards`.
- Distance.FactionDistance: requires both locations on the ring, that is in
  `[0, ringSize)`. The source computes a number for any locations.
- Proximity.SumOfSquares: gives 0 for an empty setup. The source's `reduce`
  without an initial value throws on an empty array. No setup the source
  scores is empty.
- Proximity.ProximityMeanSquare: requires at least two entries. With no
  entries, the source's `reduce` without an initial value throws before any
  division (scyther.js:51-54). With exactly one entry, it divides by 0 and the
  score is `NaN`. Neither case occurs for a drawn setup.
- Boards.PickBoards: distinctness compares entries by value, so it is stated
  for a catalog without repeated entries. Without that assumption, two facts
  still hold. By `PickedAndRemaining`, no value is drawn more often than it
  occurs among the entries on offer. By `DrawsArePositions` and
  `PositionsDrawnOnce`, the draws take pairwise different positions of the
  list on offer.
- Populate.PopulateBoards: inherits the in-range draws requires of
  `PickBoards`. In the source, a dry pool binds `undefined`, and `populateBoards`
  then throws a TypeError before it appends anything:
  - with proximity on, `factionDistance` reads `.location` of an undefined
    faction (scyther.js:32);
  - otherwise, rendering reads `selection.faction.className` of an automa entry
    without a faction (scyther.js:145), or `selection.playerBoard.label` of a
    human entry without a board (scyther.js:132).

  The model does not describe that failure. `PopulateBoards` also requires
  `CatalogOnRing`: every catalog faction's location lies in
  `[0, DATA.factions.length)`. This assumption is about the catalog data, which
  is not part of this model, and nothing in the code checks it.
