# Star Match: a verified model of the game-state engine

Star Match is a one-round arithmetic puzzle. A number of stars is shown, and
the player selects digits from 1 to 9 whose sum equals it. A matched
selection is removed from the pool and a new target is drawn. The player wins
when the pool is empty and loses when the ten-second countdown reaches zero
first.

This project models the engine behind the game in `src/App.js`. It has two
parts.

- **`Utils`** (`utils.dfy`) holds `utils.sum`, `utils.range`, `utils.random`
  and the solvable-target generator `utils.randomSumIn`. The generator grows
  two arrays by subset-sum: `sets`, the subsequences of the pool whose sum is
  at most the bound, and `sums`, the sum of each non-empty one, duplicates
  kept. It then returns one entry of `sums`.
  - `Sets` and `CollectedSums` are recursive functions. They state what the
    two arrays hold after each element of the pool.
  - `RandomSumIn` keeps the source's nested loops, the inner one bounded by
    the length `sets` had before it. It is proved to compute those arrays.
  - Further lemmas show that the enumeration is sound and complete. The
    collected sums are exactly the achievable sums within the bound.
- **`Game`** (`game.dfy`) holds the session. Class `Session` has the four
  state slots of `useGameState` as fields: `stars`, `availableNums`,
  `candidateNums` and `secondsLeft`.
  - `OnNumberClick` is the click handler; `SetGameState` is the match rule.
  - `Tick` is one second of the countdown.
  - `NumberStatus` and `GameStatus` are the derived statuses.
  - `Valid()` is the session invariant that every method keeps: the
    candidates are a duplicate-free subset of the pool, the clock stays
    within `[0, 10]`, while digits remain the target is an achievable
    sum in `[1, 9]`, and the selection never already sums to the target
    (a match is taken on the click that completes it).
- **`Scenarios`** (`scenarios.dfy`) holds client runs checked against the
  contracts alone:
  - select and deselect a digit;
  - complete a match;
  - select digits that overshoot the target;
  - lose on time.

`Math.random()` is a parameter `u: real` with `0 <= u < 1`. `undefined`
becomes `None` of `Option`; that is the generator's result with no sums, and
the value `stars` takes after the last match.

## Model

| member | source | states |
|---|---|---|
| `Utils.SumAppend` | src/App.js:14 | the sum of a concatenation is the sum of the sums |
| `Utils.SumFirst` | src/App.js:14 | `Sum`, the `reduce` from 0 adding from the back, equals the first element plus the sum of the rest, so the fold's order does not matter |
| `Utils.SumOfPositives` | src/App.js:14 | a sequence of positive numbers sums to at least its length |
| `Utils.Range` | src/App.js:16-17 | `range(min, max)` has `max - min + 1` elements, or none when `max < min`, and its `k`-th element is `min + k` |
| `Utils.Random` | src/App.js:19 | as written, `random(min, max)` lies in `[min, min + max - 1]` for positive `max`; it is `min` for `max = 0` and lies in `[min + max, min]` for negative `max` |
| `Utils.RandomInclusive` | src/App.js:19 | the intended inclusive draw lies in `[min, max]`, and is `min` for the empty range `max = min - 1` |
| `Utils.RandomOneToNine` | src/App.js:155 | both formulas give the same initial target, in `[1, 9]` |
| `Utils.EmptySubsequence` | src/App.js:22 | the empty set is a subsequence of every pool |
| `Utils.SingletonSubsequence` | src/App.js:24-31 | each single element of the pool is a subsequence of it |
| `Utils.SubsequenceMembers` | src/App.js:26 | the elements of a subsequence all come from the pool |
| `Utils.AchievablePositive` | src/App.js:21-35 | with positive elements, every achievable sum is at least 1 |
| `Utils.ExtendSound` | src/App.js:25-31 | `Extend`, the sets one inner pass pushes: each one is an earlier set extended by `arr[i]`, whose sum stays within `max` |
| `Utils.ExtendComplete` | src/App.js:25-31 | `Extend` misses nothing: each earlier set whose extension by `arr[i]` stays within `max` is extended and pushed |
| `Utils.ExtendStep` | src/App.js:25-31 | one inner iteration appends the `j`-th candidate set exactly when its sum is within `max` |
| `Utils.Sets` | src/App.js:22-33 | the enumeration starts with the empty set |
| `Utils.SetsStep` | src/App.js:24-33 | one outer iteration appends the accepted extensions of all sets that existed before it |
| `Utils.SetsNonEmpty` | src/App.js:22-33 | every set after the first is non-empty, so `sums` gets one entry per non-empty set |
| `Utils.SetsSound` | src/App.js:22-33 | every enumerated set is a subsequence of `arr` (original order, each element used at most once); a non-empty one sums to at most `max` |
| `Utils.SetsComplete` | src/App.js:22-33 | with non-negative elements, every subsequence of `arr` with sum at most `max` is enumerated; pruning loses nothing |
| `Utils.SumsSound` | src/App.js:23-30 | every entry of `CollectedSums`, the final `sums` array, is at most `max` and is the sum of a non-empty subsequence of `arr` |
| `Utils.SumsComplete` | src/App.js:23-30 | with non-negative elements, the sum of every non-empty subsequence within `max` is in `CollectedSums` |
| `Utils.CollectedSumsExact` | src/App.js:21-33 | with non-negative elements, a value is in `CollectedSums` (the `sums` array) if and only if it is within `max` and achievable |
| `Utils.CollectedSumsNonEmpty` | src/App.js:21-33 | a pool with an element within `max` yields at least one sum |
| `Utils.CollectedSumsOneTwo` | src/App.js:21-33 | the pool `[1, 2]` collects `[1, 2, 3]`, in that order |
| `Utils.Pick` | src/App.js:34 | as written, the result is `undefined` exactly when `sums` is empty, and is otherwise an entry of `sums`; with two or more sums it always comes from before the last one |
| `Utils.LastSumNeverDrawn` | src/App.js:19 | as written, on the pool `[1, 2]` the target 3 is achievable, yet no value of `Math.random()` draws it |
| `Utils.PickInclusive` | src/App.js:34 | with the intended draw, the result is `undefined` exactly when `sums` is empty, and is otherwise an entry of `sums` |
| `Utils.PickInclusiveCovers` | src/App.js:34 | with the intended draw, every position of `sums` is drawn for some `u` in `[0, 1)` |
| `Utils.GeneratorCovers` | src/App.js:21-35 | with the intended draw, every achievable sum within `max` of a non-negative pool is a possible result |
| `Utils.DrawnTarget` | src/App.js:173-177 | on a pool of digits with bound 9, the draw as written is `undefined` exactly when the pool is empty, and otherwise an achievable sum in `[1, 9]`; the same holds for the corrected draw |
| `Utils.RandomSumIn` | src/App.js:21-35 | the nested loops compute `Sets` and `CollectedSums`, keeping `sums.length == sets.length - 1` throughout; the result is `sums[random(0, sums.length - 1)]` as written and, when defined, an achievable sum within `max` |
| `Game.WithoutMembers` | src/App.js:173-175 | `Without`, which models both `filter` calls (here and at line 106): an element survives `filter(n => !drop.includes(n))` exactly when it is in the input and not in `drop` |
| `Game.WithoutSubsequence` | src/App.js:173-175 | filtering keeps the surviving elements in their original order |
| `Game.WithoutDistinct` | src/App.js:173-175 | filtering a duplicate-free pool gives a duplicate-free pool |
| `Game.DistinctCardinality` | src/App.js:173-175 | a duplicate-free sequence has as many elements as its set |
| `Game.WithoutLength` | src/App.js:173-175 | removing a duplicate-free selection from the pool shrinks it by exactly the selection's size |
| `Game.WithoutAbsent` | src/App.js:106 | filtering out a value that does not occur changes nothing |
| `Game.MatchedPool` | src/App.js:173-177 | the pool after a match is still a pool of distinct digits, a subsequence of the old one, smaller by exactly the number of candidates |
| `Game.ToggledMembers` | src/App.js:103-106 | `Toggled`, the new candidate list: for an available digit it holds the old candidates and the digit; otherwise the old candidates without the digit |
| `Game.ToggleTwice` | src/App.js:103-106 | appending an unselected digit and then filtering it out restores the candidates |
| `Game.ToggleKeepsSelection` | src/App.js:99-106 | a click on a digit whose status matches the state keeps the candidates a duplicate-free subset of the pool |
| `Game.Session.constructor` | src/App.js:154-158 | a fresh session has target `random(1, 9)`, pool `[1..9]`, no candidates and 10 seconds; it is valid and active |
| `Game.Session.WrongSelection` | src/App.js:47 | in a valid session `candidatesAreWrong` holds exactly when some selected digit shows as wrong, and never for an empty selection |
| `Game.Session.GameStatus` | src/App.js:48-53 | `won` if and only if the pool is empty, which takes priority; `lost` if and only if digits remain and no seconds are left; `active` otherwise |
| `Game.Session.NumberStatus` | src/App.js:89-97 | with `candidatesAreWrong` (src/App.js:47) as the candidates summing to more than the target: `used` if and only if the digit is not in the pool; `wrong` if and only if it is a pooled candidate and the candidates sum to more than the target; `candidate` for a pooled candidate otherwise; `available` for a pooled non-candidate |
| `Game.Session.SetGameState` | src/App.js:169-180 | when the new candidates do not sum to the target, only the candidates change. Otherwise the pool becomes the old pool with the candidates filtered out, at least one digit smaller by exactly their number; the candidates are cleared and the target is redrawn from the new pool by `randomSumIn` as written. The clock and the invariant are kept |
| `Game.Session.OnNumberClick` | src/App.js:99-108 | while the game is inactive or the digit is used, a click changes nothing; otherwise it appends an available digit or removes a selected one, then applies the match rule; the invariant is kept |
| `Game.Session.Tick` | src/App.js:160-167 | the clock goes down by one exactly when the game is active, that is, while seconds and digits remain; nothing else changes. So the clock never goes negative and freezes once the game is won or lost |
| `Game.DoubleClick` | src/App.js:99-108 | clicking an available digit twice restores the prior session, provided the first click completes no match |
| `Scenarios.SecondDigitMatches` | src/App.js:169-179 | with target 5 and 2 selected on the full pool, clicking 3 leaves pool `[1, 4, 5, 6, 7, 8, 9]`, no candidates and a new target in `[1, 9]` |
| `Scenarios.SecondDigitOvershoots` | src/App.js:169-171 | with target 3 and 5 selected on the full pool, clicking 4 keeps `[5, 4]` selected and the target 3, and both digits show as wrong |

## Left out

- The JSX components `StarsDisplay`, `PlayNumber` and `PlayAgain`, the
  `colors` table, the CSS and the Swedish texts (src/App.js:6-11, 55-88,
  110-151) are presentation only.
- `useEffect`, `setTimeout` and `clearTimeout` (src/App.js:160-167) are host
  timer plumbing. Only the guarded decrement is kept, as `Tick`. The model
  does not capture a re-render cancelling the pending timeout and re-arming
  a full second.
- `Math.random()` is floating point, so it is a caller-supplied real
  `u` in `[0, 1)`, and `Math.floor(max * u)` is computed exactly on reals.
  Rounding of the double product is not modelled.
- Sums are unbounded integers. The source adds JavaScript doubles, exact
  for these small digit sums.
- `StarMatch` and `gameId` (src/App.js:184-187) remount the game. That is a
  fresh session, the `Session` constructor.
- `OnNumberClick` does not take the `currentStatus` argument of
  `onNumberClick`. It computes it as `NumberStatus(number)` of the current
  state, which is what the button passes (src/App.js:68, 137).
- `SetGameState` requires the new candidates to be a duplicate-free subset
  of the pool. The source checks nothing, but its only caller,
  `onNumberClick`, always passes such a list.
- A digit outside 1 to 9 is not a precondition violation here: it is not in
  the pool, so the code reports it `used` and ignores the click. The model
  follows the code.
- `randomSumIn` draws from the list of collected sums with duplicates kept,
  not uniformly among distinct sums. Sums reachable by more subsets are
  more likely; the model follows the code.

## Findings

| source | as written | input that shows it | evidently intended | confidence | as-written member | corrected member |
|---|---|---|---|---|---|---|
| src/App.js:19, 34 | `random(min, max)` is `min + Math.floor(max * Math.random())`, so `random(0, sums.length - 1)` yields only `[0, sums.length - 2]` and never the last collected sum | pool `[1, 2]`: sums are `[1, 2, 3]` and the index is 0 or 1, so the target 3 is never drawn, though `[1, 2]` achieves it | `min + Math.floor((max - min + 1) * Math.random())`: every index, so every achievable sum within 9 can become the target | not executed; high, since `random(1, 9)` is the same under both formulas and only the zero-based call differs | `Utils.LastSumNeverDrawn` | `Utils.GeneratorCovers` |

`Utils.RandomSumIn` and the session draw as written. The corrected formula is
modelled beside them (`RandomInclusive`, `PickInclusive`), together with the
coverage it restores (`PickInclusiveCovers`, `GeneratorCovers`).
