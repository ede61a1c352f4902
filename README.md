# Lootbox economy engine, modelled in Dafny

This project models the economy engine of a small lootbox game: the catalog
of lootboxes, the weighted prize draw, the per-player store of balance, total
spend (`SPENT`) and inventory, the purchase transaction as the console menu and
the web handler run it, and the spend leaderboard. File and JSON I/O,
randomness and the Flask/console presentation are factored out. A directory
becomes a map or a sequence of already-parsed records, and the random draw
`r` becomes a parameter with `0 <= r < 1`.

Modules, one per component:

- `Values` (values.dfy): `Option`, Python string truthiness, and the numeric
  JSON field `NumField` with Python's `int()` truncation.
- `Text` (text.dfy): decimal rendering of integers, plus a reader that states
  the rendering reads back.
- `Selector` (selector.dfy): `open_lootbox_choice`. Chances are exact `real`s.
  The specification function is `FirstReaching`, the least index whose running
  total reaches `r`, and `SelectPrize` adds the fallback to the last entry. The
  method walks the list with a prefix-sum loop invariant.
- `Catalog` (catalog.dfy): `load_lootboxes` over parsed records in scan order.
  Records without a truthy name are skipped, costs are coerced, and the last
  record with a given name wins. The catalog is a map for lookup (`Lootboxes`) and, for
  the console menu's numbering, the dict's item list in insertion order
  (`CatalogItems`), where a redefined name keeps its first place.
- `Store` (store.dfy): the players directory as a class whose field `files`
  maps file name (`name + ".json"`) to record; `create_player`, `load_player`,
  `save_player`, and the purchase step shared by both front ends, expressed
  on the caller's detached copy of the record (`Buy`, `PlayerStore.Purchase`).
- `Leaderboard` (leaderboard.dfy): `list_players`. One row is collected per
  `.json` file, the rows are sorted stably by descending spend, and the lines
  are rendered 1-based. Python's `list.sort` becomes the pure insertion sort
  `SortBySpent`, which is proved sorted, a permutation, and stable.
- `Cli` (cli.dfy): the purchase path of `open_lootbox_menu`, with the answer
  to the prompt given as a value.
- `Web` (web.dfy): the Flask handlers that change state (`create_player`,
  `select_player`, `logout`, `open_box`). The session's `"player"` entry is an
  `Option<string>` field.

Behaviour of the code worth knowing:

- The code never checks that a cost is non-negative. A negative cost (for
  example `"cost": -5`) passes the funds check, raises the balance and lowers
  `SPENT`. `SpentNeverDecreases` therefore assumes `cost >= 0`.
- The order of the checks differs between the two front ends. The web handler
  looks up the box first, then the session player, then loads the record. The
  console menu checks and loads the player first and picks the box afterwards.
  Each is modelled as written.
- A menu number is used as a Python list index after subtracting 1, so typing
  `0` picks the last lootbox (`Cli.ZeroPicksLast`).
- `select_player` with no `name` form field looks up the file `None.json` and,
  if that file exists, stores `None` in the session.
- With chances 0.6, 0.3, 0.1 and `r = 0.95`, the exact running total reaches 1.0
  at the third entry, so the draw returns that entry without any fallback. It
  is the last entry either way.

## Model

| member | source | states |
|---|---|---|
| `Values.Trunc` | main.py:36 | `int()` of a float truncates toward zero: for `x >= 0` the result is the floor, for `x < 0` the ceiling |
| `Values.TruncOfInteger` | main.py:33-36 | an integer-valued float is returned unchanged by `int()` |
| `Text.NatToStringDigits` | main.py:112 | the rendering of a natural number is a non-empty string of decimal digits with no leading zero unless the number is 0 |
| `Text.ParseNatToString` | main.py:112 | reading back the rendered digits of `n` gives `n` |
| `Text.IntToStringReadsBack` | main.py:112 | an int renders with a leading `-` exactly when negative, and the digits read back to its magnitude |
| `Selector.ChanceValue` | main.py:123-126 | a missing or non-numeric `chance` contributes 0; a numeric one contributes its value |
| `Selector.SelectIndex` | main.py:119-133 | the draw has no result exactly for an empty item list; otherwise its index lies within the list |
| `Selector.FirstReachingFromSpec` | main.py:121-129 | the search from index `i` returns the least index from `i` on whose running total reaches `r`, or none when no running total from `i` on reaches `r` |
| `Selector.FirstReachingIsLeast` | main.py:121-129 | `FirstReaching` is `k` if and only if the running total at `k` is `>= r` and every earlier running total is `< r` |
| `Selector.FirstReachingNone` | main.py:121-131 | `FirstReaching` finds nothing if and only if every running total is below `r` |
| `Selector.SelectPrizeFromList` | main.py:119-133 | for the draw `SelectPrize`: an empty list draws `None`; a non-empty list draws the label of one of its entries |
| `Selector.FallbackToLast` | main.py:130-132 | `SelectPrize`: when no running total reaches `r`, the last entry's label is drawn |
| `Selector.PrefixSumMonotone` | main.py:121-127 | with non-negative chances the running total never decreases |
| `Selector.TotalBelowDrawsLast` | main.py:130-132 | with non-negative chances whose total is below `r`, the last entry's label is drawn |
| `Selector.UnweightedLikeZeroSums` | main.py:123-127 | replacing a missing or non-numeric chance by 0 changes no running total |
| `Selector.UnweightedLikeZero` | main.py:123-129 | an entry with a missing or non-numeric chance draws exactly as if its chance were 0 |
| `Selector.OpenLootboxChoice` | main.py:117-133 | the loop returns exactly `SelectPrize(items, r)`: the first entry whose running total reaches `r`, else the last entry, else `None` |
| `Selector.ExampleThreeItems` | main.py:117-133 | chances 0.6, 0.3, 0.1 draw the first label for `r = 0.5` and the last for `r = 0.95` |
| `Selector.ExampleDeficient` | main.py:130-132 | chances 0.1, 0.1 with `r = 0.99` draw the second label, not `None` |
| `Catalog.CoerceCost` | main.py:31-38 | an absent or unconvertible cost becomes 0, an integer is kept, a decimal is truncated toward zero, and an integer-valued decimal is kept |
| `Catalog.LootboxesKeys` | main.py:26-41 | a name is in the catalog `Lootboxes(records)` if and only if it is non-empty and some record carries it |
| `Catalog.LootboxesLastWins` | main.py:41 | the entry for a name is the normalised last record carrying that name |
| `Catalog.SkipsNameless` | main.py:26-28 | a record without a truthy name leaves the catalog unchanged |
| `Catalog.LoadLootboxes` | main.py:9-43 | the loop builds exactly the catalog `Lootboxes(records)` |
| `Catalog.Upsert` | main.py:41 | assigning `lootboxes[name]` in a dict's insertion order: a listed name is replaced at its first place, a new name is appended |
| `Catalog.CatalogItemsAgree` | main.py:26-41 | the catalog's `items()` list `CatalogItems(records)` names each catalog entry exactly once, with that entry's box |
| `Catalog.RedefinedKeepsPlace` | main.py:41 | a redefined name keeps its place in the item list and takes the later record |
| `Catalog.NewNameGoesLast` | main.py:41 | a name not yet in the catalog is listed last |
| `Store.FilePath` | main.py:51-54 | a player's file name ends in `.json` and is 5 characters longer than the name |
| `Store.NameOfFilePath` | main.py:99 | `NameOf` (`filename[:-5]`): stripping the last 5 characters of `name + ".json"` gives back `name` |
| `Store.FilePathOfNameOf` | main.py:99 | every `.json` file name is the file name of the player name read off it |
| `Store.FilePathInjective` | main.py:53 | two names share a file name if and only if they are equal |
| `Store.Load` | main.py:70-75 | a record is found exactly when the player's file exists |
| `Store.Save` | main.py:78-81 | after a save the player's file exists, and loading it returns the saved record |
| `Store.AfterCreate` | main.py:57-67 | creating over an existing file changes nothing. Otherwise the name then loads `{name, balance: starting balance, SPENT: 0, inventory: []}`, and no other name's record changes |
| `Store.SaveOnlyChangesItsKey` | main.py:78-81 | saving one player leaves every other player's load result unchanged |
| `Store.SaveIdempotent` | main.py:78-81 | saving the same record twice equals saving it once |
| `Store.CreateTwice` | main.py:57-61 | a second creation of a name leaves the directory as the first creation left it |
| `Store.LoadAfterReplay` | main.py:57-81 | after any sequence of creates and saves into an empty directory, a name loads a record if and only if some operation named it |
| `Store.Buy` | main.py:224-234 | the purchase is refused if and only if balance is below cost. On success: balance drops by cost and stays `>= 0`, `SPENT` rises by cost, the prize is the draw, and the inventory keeps its old entries and grows by one, the prize, exactly when the prize is truthy |
| `Store.SpentNeverDecreases` | main.py:231 | for a cost `>= 0` a purchase never lowers `SPENT` |
| `Store.PlayerStore.constructor` | main.py:46-48 | a new store is an empty players directory |
| `Store.PlayerStore.CreatePlayer` | main.py:57-67 | returns false and writes nothing when the file exists; otherwise returns true and writes the new record (default balance 1000) |
| `Store.PlayerStore.LoadPlayer` | main.py:70-75 | returns the stored record, or `None` when there is no file |
| `Store.PlayerStore.SavePlayer` | main.py:78-81 | overwrites exactly the player's file |
| `Store.PlayerStore.Purchase` | main.py:224-236 | returns `Buy` of the caller's copy; writes nothing when funds are short, else saves the updated record under the player's name only |
| `Leaderboard.SpentValue` | main.py:100-104 | an absent or non-numeric `SPENT` ranks as 0; a number ranks as its value |
| `Leaderboard.StandingsOfScan` | main.py:89-106 | the collected rows `Standings(scan)`: one per `.json` file; every row is the row (name without the suffix, spend) of some `.json` entry, and every `.json` entry contributes its row |
| `Leaderboard.StandingsInScanOrder` | main.py:89-106 | the row of the `.json` entry at position `k` is at index "number of `.json` entries before `k`" |
| `Leaderboard.JsonCountIncreases` | main.py:89-106 | an earlier `.json` entry gets a smaller index, so rows are collected in scan order |
| `Leaderboard.SortBySpentPermutes` | main.py:108 | `SortBySpent`: the sort result is a permutation of its input |
| `Leaderboard.SortBySpentDescending` | main.py:108 | `SortBySpent`: the sorted rows have non-increasing spend |
| `Leaderboard.SortBySpentStable` | main.py:108 | `SortBySpent`: the rows tied at any spend keep their scan order |
| `Leaderboard.LineBeginsWithRank` | main.py:111-112 | `Line`, the f-string: every line starts with its decimal rank and `". "`, and the rank reads back |
| `Leaderboard.RankingSpec` | main.py:99-108 | the ranking has one row per parsable `.json` file, holds exactly the scanned rows, is non-increasing in spend, and is stable |
| `Leaderboard.ListPlayers` | main.py:84-114 | line `i` (1-based) is `"<i>. <name> - Total Spent: <int(spent)> coins"` for the `i`-th ranked row, one line per row |
| `Leaderboard.ExampleTies` | main.py:108 | A:500, B:100, C:500 rank A, C, B |
| `Cli.PyIndex` | main.py:218-219 | list indexing accepts `-len <= idx < len`, with negative indices counting from the end |
| `Cli.Pick` | main.py:217-219 | `boxes[int(choice) - 1]` succeeds exactly for `-len < number <= len`; a positive number picks entry `number - 1`, and 0 or a negative number counts from the end |
| `Cli.PickFromCatalog` | main.py:204-219 | a box picked from the catalog's item list is the catalog's entry for that name |
| `Cli.ZeroPicksLast` | main.py:218-219 | typing 0 at the menu picks the last lootbox |
| `Cli.OpenLootboxMenu` | main.py:192-236 | no player, an unloadable player, no lootboxes, going back, an invalid choice and short funds write nothing. Otherwise the purchase is saved under the current player, and the menu reports the box name and the prize |
| `Web.WebApp.CreatePlayerRoute` | app.py:26-41 | GET and an empty name change nothing; a duplicate name changes neither store nor session; a fresh name is created with the default balance and becomes the session player |
| `Web.WebApp.SelectPlayer` | app.py:44-52 | the session becomes the form name exactly when the record of `FormText(name)` loads (a missing name formats as `None` and looks up `None.json`); otherwise the session is unchanged |
| `Web.WebApp.Logout` | app.py:55-59 | the session player is cleared |
| `Web.WebApp.OpenBox` | app.py:68-102 | the checks run in order: unknown box, then no session player, then unloadable record, and each writes nothing. A GET only confirms. A POST with short funds writes nothing; otherwise it saves the purchased record under the session player and shows the new balance |

## Left out

- Filesystem and JSON I/O (`os.listdir`, `open`, `json.load`/`dump`, `ensure_players_folder`): the catalog and the leaderboard scan are taken as sequences of already-parsed records in directory order, and the players directory is a map.
- Files that fail to parse are simply absent from the input sequences. A corrupt player file read by `load_player` is not modelled, because stored records are always well formed.
- The catalog's `.json` file-name filter (main.py:16) is part of the directory scan and is not modelled. The leaderboard's filter is modelled, because the player name comes from the file name.
- Randomness: `random.random()` is the parameter `r`.
- Floating point: chances and spend values are exact reals. Rounding, NaN and infinity are not modelled, nor is the precision lost by `float()` of a large integer.
- How a field's text is classified (which strings `int()` or `float()` accept): `NumField` and `Chance` receive the classification already made.
- JSON values of unexpected shape (a record or item entry that is not an object, a non-string name or label, a non-list `items`): the source raises on some of these, and the model's types exclude them.
- Player records missing `balance`, `SPENT` or `inventory` (the `.get(..., 0)` and `setdefault` defaults): `Record` always has all four fields.
- `Cli.OpenLootboxMenu` takes the menu list as a parameter and does not require it to be `CatalogItems(records)`; `Cli.PickFromCatalog` states what holds when it is. The loaded catalog `Lootboxes` is a map, so its iteration order is carried by `CatalogItems` alone.
- Interactive console menus (`print_main_menu`, `profile_menu`, `main`), all printing, and the reading of the menu prompt.
- Flask plumbing: templates, `flash`, redirects, the secret key, `app.run`. The read-only routes `index`, `players` and `lootboxes` only render.
- Concurrency: the lost update when two requests purchase for the same player.
- Path semantics of unsanitised player names: a name is turned into a file name by appending `.json`, and directories are not modelled.
