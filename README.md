# follow — grid logic of the client

A model, in Dafny, of the client-side grid logic of the multiplayer "follow"
game: players stand on cells of a 25 × 15 toroidal grid and move with the
w/a/s/d keys; while a game is starting, one "lucky cell" at a time is
highlighted. The model covers

- `Coordinates` (models/Coordinate.ts): the cell position and its equality;
- `Users`, `Games` (models/User.ts, models/Game/index.ts): the user and game
  records, the grid size `GameRows = 15`, `GameColumns = 25`, and the game
  state `Waiting | Starting | Started`;
- `UserLookup` (lib/getUserOnLocation.ts): the first user, in list order,
  standing on a cell;
- `CellBackground` (lib/getCellBackground.ts): a cell's colour — the lucky
  colour `#ec407a` for the active lucky cell while the game is starting,
  otherwise the colour of the first user on the cell, otherwise nothing;
- `Movement` (lib/onMovement.ts): the wrap-around step arithmetic and the
  key handler `modifyMovement`, which debounces key presses (one move per
  key-down edge; key repeat is ignored; key-up re-arms the key).

`modifyMovement` is modelled twice, as the source's state machine and as its
specification. `Movement.Step` is a pure function from the handler's state
(location and keys held) and one key event to the new state and the location
it emits, and `Movement.Run` replays a sequence of events; the debounce
properties are lemmas about `Run`. `Movement.MovementHandler` is the closure
state itself: the location object `MutableCoordinate`, whose fields are
updated in place, and the set of held keys. Its method `ModifyMovement` is
proved to do exactly what `Step` says and to keep the location on the grid.
The locations passed to the `setLocation` callback are recorded in the ghost
sequence `emitted`.

Nullable inputs (`GameState | null`, `Coordinate[] | null`, `number | null`,
`User[] | null`) are `Option` values, and an `undefined` result is `None`.
JavaScript numbers are modelled as unbounded integers. The movement handler
only computes grid indices plus or minus one; every other number (scores,
`luckyCellIndex`, the locations of other users) is only compared or used as
an index.

Two behaviours of the code worth stating directly:

- When several users share a cell, the FIRST in list order is found and
  shown, because the lookup is `Array.find` (lib/getUserOnLocation.ts:5;
  `UserLookup.GetUserOnLocationIsEarliest`,
  `CellBackground.CellShowsFirstOccupant`).
- `wrap` adds `max` once to a negative value, so it lands in `[0, max)` only
  for `x >= -max` (lib/onMovement.ts:5), which is `Movement.Wrap`'s
  precondition. The handler only ever passes a grid index plus or minus one.

## Model

| member | source | states |
|---|---|---|
| `Coordinates.AreCoordinatesEqual` | models/Coordinate.ts:6-7 | two coordinates compare equal exactly when they are the same coordinate (both x and y agree) |
| `Coordinates.AreCoordinatesEqualIsEquivalence` | models/Coordinate.ts:6-7 | the comparison is reflexive, symmetric and transitive |
| `UserLookup.FindIndex` | lib/getUserOnLocation.ts:4-5 | the index found is the first one whose user stands on the location; no index means no user in the list stands there |
| `UserLookup.GetUserOnLocation` | lib/getUserOnLocation.ts:4-5 | a returned user is a member of the list and stands on the location; nothing is returned exactly when no user of the list stands there |
| `UserLookup.GetUserOnLocationIsEarliest` | lib/getUserOnLocation.ts:5 | when several users share the cell, the earliest in list order is returned |
| `UserLookup.GetUserOnLocationIsFirstOccupant` | lib/getUserOnLocation.ts:4-5 | the search agrees with an independent definition: the head of the list of all users on the cell, or nothing when that list is empty |
| `UserLookup.GetUserOnLocationAppend` | lib/getUserOnLocation.ts:4-5 | searching a concatenation returns the front part's match if it has one, else the back part's |
| `CellBackground.GetCellBackground` | lib/getCellBackground.ts:14-27 | with the game Starting and both lucky inputs present, the cell equal to `luckyCells[luckyCellIndex]` (column as x, row as y) is `#ec407a` whatever the users; otherwise there is no colour exactly when `users` is null or no user stands on the cell, and a colour is that of a user standing on it; the index must name an entry of `luckyCells` when that branch is taken |
| `CellBackground.CellShowsFirstOccupant` | lib/getCellBackground.ts:24-26 | without the lucky override the colour is that of the first user in list order standing on the cell |
| `CellBackground.NotStartingIgnoresLuckyCells` | lib/getCellBackground.ts:17-26 | in any state other than Starting (including a null state) the lucky-cell inputs do not affect the colour |
| `CellBackground.OnlyActiveLuckyCellHighlighted` | lib/getCellBackground.ts:17-21 | a cell that is some other entry of the lucky-cell list, but not the active one, is coloured as if there were no lucky cells |
| `CellBackground.LuckyCellAtItsRowAndColumn` | lib/getCellBackground.ts:15-21 | the active lucky cell (x, y) is highlighted at row y and column x |
| `Movement.Wrap` | lib/onMovement.ts:4-5 | for `max > 0` and `x >= -max` the result lies in `[0, max)` and is `x` modulo `max` |
| `Movement.WrapPeriodic` | lib/onMovement.ts:4-5 | `wrap(x, max) == wrap(x + max, max)` |
| `Movement.WrapEdges` | lib/onMovement.ts:4-5 | `wrap(-1, max) == max - 1` and `wrap(max, max) == 0` |
| `Movement.ToLower` | lib/onMovement.ts:12 | the key is lower-cased character by character, keeping its length |
| `Movement.ToLowerIdempotent` | lib/onMovement.ts:12 | lower-casing an already lower-cased key changes nothing |
| `Movement.OppositeMovesCancel` | lib/onMovement.ts:22-34 | moving w then s, s then w, a then d, or d then a returns to the starting cell |
| `Movement.Step` | lib/onMovement.ts:11-41 | one call keeps the location on the grid; it emits a location exactly on a key-down of a w/a/s/d key not already held; the emitted location is the new location, the neighbouring cell on the torus (w: y-1, s: y+1, a: x-1, d: x+1, other axis unchanged); without emission the location is unchanged; key-up removes the key, an emitting key-down adds it, every other call leaves the keys alone |
| `Movement.StepIgnoresCase` | lib/onMovement.ts:12-41 | a key and its lower-cased form (e.g. `W` and `w`) have the same effect |
| `Movement.Run` | lib/onMovement.ts:11-41 | over any sequence of key events the location stays on the grid, every emitted location is on the grid, and the last emitted location is the current one |
| `Movement.RunEmitsAtMostOnePerDown` | lib/onMovement.ts:14-40 | no sequence of events emits more locations than it has key-down events |
| `Movement.HeldKeyIgnored` | lib/onMovement.ts:19-20 | while a key is held, any number of further key-downs for it change nothing and emit nothing |
| `Movement.HeldKeyMovesOnce` | lib/onMovement.ts:14-40 | a sustained key-down (repeated downs without an up) of a movement key emits exactly one location, the neighbouring cell |
| `Movement.PressReleasePressMovesTwice` | lib/onMovement.ts:14-40 | down, up, down of a movement key emits two locations, one step and then a second step |
| `Movement.MovementHandler.constructor` | lib/onMovement.ts:8-9 | the handler starts at the zero coordinate with no keys held and nothing emitted |
| `Movement.MovementHandler.ModifyMovement` | lib/onMovement.ts:11-41 | the handler's new location and keys are those `Step` gives, the location stays on the grid, and the location passed to `setLocation`, if any, is appended to `emitted` |

## Left out

- Listener registration and removal (lib/onMovement.ts:43-55): browser event plumbing; `ModifyMovement` is called directly with the key and the up/down flag.
- `Movement.MovementHandler.ModifyMovement`: the source passes the live location object to `setLocation`, so a caller that keeps it sees later moves too; the model records a copy of the location at the moment of each call.
- `Movement.ToLower`: lower-cases the ASCII letters A-Z only; JavaScript's `toLowerCase` also folds other Unicode letters, which never make a movement key.
- `Movement.Wrap`: the source returns a negative number for `x < -max`; that input is excluded by the precondition because the handler never produces it.
- `CellBackground.GetCellBackground`: requires `luckyCellIndex` to name an entry of `luckyCells` when the lucky branch is taken; with any other index the source reads a field of `undefined` and throws, which the model does not represent.
- `getZeroCoordinate` (imported at lib/onMovement.ts:2) is not modelled; it is taken to be the origin (0, 0), which lies on the grid.
- The enum imported from models/Game/State is taken to be `Waiting | Starting | Started`.
- Coordinates are integers: `NaN` and non-integer coordinates are not represented. `Coordinates.AreCoordinatesEqualIsEquivalence` (reflexivity in particular) holds only under this abstraction, since `areCoordinatesEqual` compares with `===` and is not reflexive on `NaN` in JavaScript.
- pages/index.tsx and pages/[id].tsx: rendering, routing, toast notifications, the socket connection and its events, the game lifecycle, the lucky-cell countdown timer and the score-sorted roster are presentation and I/O code outside this model.
- lib/createGame.ts (an HTTP request) and lib/getId.ts (local storage and random id generation): I/O and randomness.
- models/InitialData.ts: a snapshot type used only by the socket code.
