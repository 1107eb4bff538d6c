# Text-adventure world model

A Dafny model of the world of a small text-adventure game: rooms joined by
directional exits, the items lying in them, the map that tracks where the
player stands, and the helper that picks "a" or "an" for an item's default
description. Everything is modelled as immutable datatypes and pure
functions; an operation that mutates a Python object returns the new value
instead.

- `Wrappers` — `Option` (Python's `None`) and `Result` (a raised exception).
- `Text` — the string operations the game relies on: ASCII `lower()`,
  `str.join`, `str.replace(pattern, "")` and substring occurrence (`in`).
- `Utils` — `a_or_an`.
- `Directions` — the twelve canonical directions, their alias table, the
  search `add_exit` performs over it (`FirstMatch`, for any dictionary
  iteration order) and the resulting case-insensitive `Resolve`.
- `Items` — `Item` and the speaking `Guard`.
- `Rooms` — `Room`: name derivation, `add_item`, `add_exit`,
  `possible_exits`, `move`, `show_items`, `describe` and its first-time latch,
  plus a history datatype (`RoomOp`/`Run`) for stating that the latch never
  resets.
- `GameMap` — `Map`: the rooms of a world by id and the current location,
  `move`, `describe_room`, `possible_exits`, walks of several moves, and the
  two-room world the test script `TestScript.setUp` builds (test_game.py:68-77):
  outside, with an exit in to a hallway holding a guard, and an exit back out.

Rooms refer to each other by `RoomId` rather than by reference, so the exit
graph can contain cycles and self-loops. The model's `GameMap.Map.rooms` is the
store of every room in the world, indexed by `RoomId`, and the predicate
`GameMap.Valid` says that every exit target and the location are ids in that
store, which the map operations require and preserve. In Python, `Map.rooms`
only supplies the starting room `rooms[0]`; the rooms reached through exits
need not be in that list, since a move follows the room reference itself.

Where the repository's own tests expect behaviour that game.py does not have,
the model follows game.py:
- `Room.move` does no alias normalisation: only an exact canonical name finds
  an exit (`Rooms.MoveIgnoresAliases`). `test_move_by_alias`
  (test_game.py:259-264) expects `move("n")` to find an exit added as "north".
- `possible_exits` returns the keys of a dictionary, whose order Python 2 does
  not specify, so the model returns a set. `test_possible_exits`
  (test_game.py:232-243) expects insertion order.
- test_game.py also calls a command parser (`Game.parse_action`) and a player
  "moved" flag that game.py does not define; see "Left out".

## Model

| member | source | states |
|---|---|---|
| Utils.AOrAn | utils.py:5-9 | the result is the word, unchanged, after either "an " or "a "; it is "an " exactly when the first character is one of a, e, i, o, u in either case |
| Utils.FirstCharacterDecides | utils.py:6 | two non-empty words with the same first character get the same article: the anchored one-character match looks at nothing else |
| Utils.ArticleIgnoresCase | utils.py:6 | the article does not change when the word is lower-cased (the match ignores case) |
| Utils.AOrAnExamples | utils.py:5-9 | "ottle" becomes "an ottle" and "bottle" becomes "a bottle" |
| Utils.AOrAnEdgeCases | utils.py:5-9 | "Egg" takes "an"; the empty word, "yak" and "8ball" take "a" |
| Directions.Aliases | game.py:56-69 | each direction lists at most two aliases, the first of them its own canonical name |
| Directions.AliasTableWellFormed | game.py:56-69 | every canonical direction lists its own name as an alias, and no alias belongs to two directions |
| Directions.AliasOwnerInvertsTable | game.py:56-69 | a string is an alias of d exactly when the reverse lookup from aliases to directions gives d, so each alias has one owner |
| Directions.NameInjective | game.py:56-69 | the twelve canonical names are distinct |
| Directions.AliasesAreLowerCase | game.py:56-69 | every alias is lower case, so comparing the lower-cased input against the table accepts each alias in any letter case |
| Directions.FirstMatch | game.py:84-87 | the search over the table, in a given iteration order, returns a direction of that order that lists the key, and returns nothing only when no direction of the order lists it |
| Directions.ResolveOrderIndependent | game.py:84-87 | every dictionary iteration order that visits all directions finds the same direction, so normalisation is a function of the input |
| Directions.Resolve | game.py:84-88 | input resolves exactly when its lower-case form is an alias of some direction, and then to a direction listing that form |
| Directions.ResolveAlias | game.py:84-87 | any text whose lower-case form is an alias of d resolves to d |
| Directions.ResolveUnknown | game.py:84-88 | text whose lower-case form is no alias resolves to nothing |
| Directions.ResolveMixedCase | game.py:85 | "NE" and "Ne" both resolve to northeast |
| Directions.ResolveInvalid | game.py:88 | "-invalid-" resolves to nothing |
| Directions.FromName | game.py:93-94 | a dictionary keyed by canonical names finds a direction for a string exactly when the string is that direction's name |
| Items.NewItem | game.py:127-137 | the name is kept; an explicit description is kept verbatim; a missing one becomes "It's just an NAME..." when the name starts with a vowel and "It's just a NAME..." otherwise; the item says "..." |
| Items.NewGuard | game.py:140-146 | a guard keeps the name and the description rule of an item and says "Stop" |
| Items.Say | game.py:136-146 | an item says "..." exactly when it is a plain item; a guard says the first of its commands |
| Items.DefaultDescArticle | game.py:130-131 | the default description is "It's just an NAME..." for a name starting with a vowel and "It's just a NAME..." otherwise |
| Items.DefaultDescRock | game.py:130-131 | "rock" gets "It's just a rock..." |
| Items.DefaultDescEgg | game.py:130-131 | "egg" gets "It's just an egg..." |
| Items.ExplicitDescExample | game.py:127-131 | an item built with description "xyzzy" keeps it |
| Rooms.DeriveName | game.py:47-50 | the name is the class name with every "Room" removed by one left-to-right scan, or the fallback sentence when that leaves nothing; it is never empty, and is the class name itself when that contains no "Room" |
| Text.RemoveAll | game.py:47 | `str.replace(pattern, "")` never lengthens the string; RemoveAllDropsLeading, RemoveAllKeepsCleanPrefix and RemoveAllWithoutPattern fix what it removes |
| Text.RemoveAllDropsLeading | game.py:47 | a match at the start is removed whole and the scan continues after it, so every non-overlapping match is removed, not only the first |
| Text.RemoveAllWithoutPattern | game.py:47 | removing every "Room" from a string that has none leaves it unchanged |
| Rooms.NewRoom | game.py:45-78 | a new room has no items, no exits, the first-time flag set, the derived name and the given narrative |
| Text.RemoveAllKeepsCleanPrefix | game.py:47 | a prefix without the pattern is kept verbatim when the rest starts with the pattern's first character and that character occurs nowhere else in the pattern |
| Rooms.SubclassName | game.py:47-50 | a class called NAME + "Room", where NAME is non-empty and does not contain "Room", is named NAME |
| Rooms.RoomRoomName | game.py:47-50 | a class "RoomRoom" loses both matches and takes the fallback sentence |
| Rooms.RedRoomName | game.py:47-50 | a class "RedRoom" is named "Red": an 'R' elsewhere does not matter |
| Rooms.Outside | game.py:111-115 | `OutsideRoom()` is named "Outside", carries its narrative, and starts with no items, no exits and the first-time flag set |
| Rooms.Hallway | game.py:118-123 | `HallwayRoom()` is named "Hallway", carries its narrative, and starts with no items, no exits and the first-time flag set |
| Rooms.BaseName | game.py:47-50 | the class "Room" leaves nothing after the removal and takes the fallback sentence |
| Rooms.RoomNames | game.py:47-50 | "OutsideRoom" is named "Outside", "HallwayRoom" "Hallway", and the base class "Room" falls back to the handbasket sentence |
| Rooms.AddItem | game.py:80-81 | the item list grows by one: the old items, in order, then the new one, duplicates kept; nothing else changes |
| Rooms.AddExit | game.py:83-88 | fails with the invalid-direction error carrying the input exactly when its lower-case form is no alias; otherwise sets the exit of a direction that form is an alias of and changes nothing else |
| Rooms.AddExitByAlias | game.py:83-87 | adding by any alias of d in any case sets exits[d] to the target, keeps every other key and target, and grows the exit count by one only when d was new |
| Rooms.UpdateFacts | game.py:87 | setting one exit points that direction at the target, keeps every other exit, and adds an exit only when the direction was new |
| Rooms.AddExitTwice | game.py:83-87 | adding d twice through two of its aliases leaves one exit for d, pointing at the later target |
| Rooms.PossibleExits | game.py:90-91 | the possible exits are exactly the canonical names of the wired directions, as many as there are exits |
| Rooms.Move | game.py:93-94 | a move finds a room exactly when the text is one of the possible exits, and then the target of the direction with that exact name |
| Rooms.MoveAfterAddExit | game.py:83-94 | an exit added under any alias is reached by moving in the direction's canonical name |
| Rooms.MoveIgnoresAliases | game.py:93-94 | text that is not exactly a canonical name never finds an exit, even an abbreviation of a wired one |
| Text.Lower | game.py:85 | ASCII `str.lower()` keeps the length and lower-cases each character, leaving no upper-case letter |
| Text.LowerIsLowerCase | game.py:85 | lower-casing leaves nothing to lower-case: the result is all lower case and lower-casing it again changes nothing |
| Text.LowerOfLowerCase | game.py:85 | a string with no upper-case letter is its own lower-case form |
| Text.Join | game.py:99-101 | `"\n".join(names)` is empty for no names, is the name itself for one name, and starts with the first name; JoinAppend fixes every longer join |
| Text.JoinAppend | game.py:99-101 | joining one more name adds the separator and that name at the end |
| Text.JoinContainsEach | game.py:99-101 | every joined name occurs in the join |
| Rooms.ShowItems | game.py:96-101 | the listing is empty exactly when there are no items; otherwise it starts with the header line and ends with a space |
| Rooms.ShowItemsListsEveryItem | game.py:133-134 | every item's name, which is what `str(item)` gives, occurs in the listing |
| Rooms.ShowItemsAfterAddItem | game.py:80-101 | adding an item to a room with items puts its name on a new last line, after the previous listing |
| Rooms.ItemNamesAppend | game.py:80-101 | appending an item appends its name to the listed names |
| Rooms.ShowItemsFirstItem | game.py:80-101 | adding the first item makes the listing the header, its name and a space |
| Rooms.Describe | game.py:103-108 | the first or a verbose render is name, newline, narrative, blank line, listing; any other render is name, newline, listing; afterwards the flag is clear and nothing else in the room changed |
| Rooms.DescribeShape | game.py:103-108 | every render starts with the name and a newline and ends with the item listing; a first or verbose render contains the narrative |
| Rooms.FullRenderShape | game.py:105-106 | the full render text starts with the name line, ends with the listing and contains the narrative |
| Rooms.ShortRenderShape | game.py:107-108 | the short render text starts with the name line and ends with the listing |
| Rooms.DescribeLatch | game.py:103-108 | after any render, a plain render omits the narrative and changes nothing, and a verbose one shows it again |
| Rooms.ApplyKeepsName | game.py:78-108 | one room operation clears the first-time flag exactly when it is a render, and never changes the name or narrative |
| Rooms.FirstTimeLatch | game.py:78-108 | after any history of room operations the flag is set exactly when it was set before and no render happened; name and narrative never change |
| GameMap.NewMap | game.py:27-29 | the location is the first room, or none exactly when there are no rooms; a closed room list gives a valid map |
| GameMap.MoveOn | game.py:37-41 | without a location the call fails; otherwise it returns the current room's move result, leaves the rooms alone, goes to the found room, and leaves the map unchanged when nothing was found |
| GameMap.DescribeRoom | game.py:31-32 | renders the current room as the room's own describe does, stores exactly the room describe leaves (flag cleared, all else kept) back in its place, and changes no other room and not the location |
| GameMap.PossibleExitsHere | game.py:34-35 | every exit listed for the current room moves the player, and there are as many as the room has exits |
| GameMap.MoveAll | game.py:37-41 | a series of moves fails exactly when there is at least one move and no location; otherwise the rooms are unchanged, the map stays valid and a location stays set |
| GameMap.MovesFollowExits | game.py:37-41 | after any series of moves the rooms are unchanged and the location is reached from the start by following at most that many exits |
| GameMap.MoveAlongExit | game.py:37-41 | moving in the canonical name of a wired exit goes to its target |
| GameMap.MoveThereAndBack | game.py:37-41 | two exits wired back to back bring the player back to the same map |
| GameMap.MoveByAliasStays | game.py:37-41 | a direction that is no canonical name leaves the map as it is |
| GameMap.WireExit | game.py:83-87 | adding an exit under a canonical name points that direction at the target |
| GameMap.DemoWorld | test_game.py:68-77 | the scripted world is valid, starts outside, leads in from the outside and out from the hallway, and has the guard in the hallway |
| GameMap.DemoWorldIsWired | test_game.py:68-77 | that world is exactly what adding the guard and the two exits builds |
| GameMap.DescribeRoomShowsNameAndItems | game.py:96-108 | every render of the current room shows its name and every item's name |
| GameMap.DemoFirstRender | game.py:31-32 | the first render of the scripted world shows the outside's name |
| GameMap.DemoEnter | game.py:37-41 | after that render, "in" takes the player to the hallway, which the render left unchanged |
| GameMap.DemoHallwayRender | game.py:31-32 | rendering there shows the hallway's name and "Guard 1" |

## Left out

- `Game` and `Game.play` (game.py:6-16): an endless print/read loop of console I/O. It uses the module-level `a_map`, which exists only when game.py runs as a script, instead of `self.a_map`; its `move(1)` never finds an exit, because exits are keyed by direction names.
- `Player` (game.py:19-23): it only stores flavour fields that no logic reads.
- The `__main__` block (game.py:149-156): it builds the two rooms and the guard without any exits and starts the console loop. The world modelled, `GameMap.DemoWorld`, is the one `TestScript.setUp` wires (test_game.py:68-77).
- A command parser, an unknown-command error, scripted input, a farewell on quit, alias-aware `move`, a player "moved" flag and ordered exits: none of these exists in game.py.
- Name derivation reads the Python class name by reflection; the model takes the class name as a parameter of `Rooms.NewRoom`.
- `Rooms.PossibleExits`: returns a set of names rather than a list, because the order of Python 2 dictionary keys is unspecified.
- Python's `re` module: `[aeiou]` with IGNORECASE is modelled as a test of the first character against the ten ASCII vowels.
- `str.lower()` is modelled as ASCII-only lower-casing, which is what Python 2 does on byte strings.
- The `ValueError` of `add_exit` is modelled as the `RoomError` value `InvalidDirection(text)`, without its message text, and the `AttributeError` of calling a `Map` method without a location as `MapError.NoLocation`.
- `Guard.commands` is the fixed constant `Items.GuardCommands`; nothing in game.py changes a guard's list after construction.
- `valid_directions` is a dictionary each room builds in `__init__` (game.py:56-69) and could change; the model uses one fixed table, `Directions.Aliases`, since nothing in game.py changes it.
- `Map.rooms` as a list that need not hold the rooms exits lead to: the model keeps every room in one store, so a Python map whose list omits a room reachable by an exit corresponds to a model map whose store includes it.
