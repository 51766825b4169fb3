# testbot game core in Dafny

A model of the game core of the testbot Discord bot: the item catalog
(`item_manager.py`) and the game cog (`game_cog.py`) with its battle view.
The database tables the cog reads and writes become state. There is one
`Player` record per user (the players table). Each user has a map from item
id to `Slot` (the player_inventory rows). The seeded locations, connections
and spawns of `database.py` are a value. Each command is a method of
`Game.GameCog` or `Game.BattleView`. Its postcondition ties the new state to
a pure function of the other modules, and the lemmas prove the properties
about those functions.

- `items.dfy` (`Items`): the `Item` record and its dictionary form. It also
  holds the `ItemManager` class, whose cache maps ids to items and keeps the
  ids in insertion order, so the by-name lookup returns the first match the
  way Python's dict iteration does.
- `inventory.dfy` (`Inventory`): one player's rows. It covers `_has_item`,
  `add_item_to_inventory`, `_use_tool`, the crafting deduction and grant, and
  the consumption of a used item.
- `players.dfy` (`Players`): the players row, the effects of `use_item`, and
  `choose_job`.
- `world.dfy` (`World`): locations, directed connections and spawns, with the
  rule of `move`, and the seeded map.
- `actions.dfy` (`Actions`): every branch of `do_action`.
- `battle.dfy` (`Battle`): `MONSTERS` and one press of the attack button as a
  pure turn.
- `game.dfy` (`Game`): the classes `GameCog` and `BattleView`, with the
  loops of `craft` and of the drop grants.

Randomness, the clock and the Discord interaction are parameters:
- `random.randint(5, 15)` is `roll`;
- each `random.random() < p` is an integer roll in [0, 100) compared with
  `100 * p`;
- `random.choice` is `pick % |spawns|`;
- `time.time()` is `now`, one value per command, in whole seconds;
- the user pressing a button is `actor`.

## Model

| member | source | states |
|---|---|---|
| Items.ToDict | item_manager.py:18-29 | the dictionary has exactly the nine constructor keys |
| Items.ToDictRoundTrip | item_manager.py:18-29 | reading the dictionary back gives the same item: only the maximum durability is not in it |
| Items.NewItemToDict | item_manager.py:4-13 | an item built from a row keeps every column, and `stackable` is true exactly when the stored integer is non-zero |
| Items.FirstIndex | item_manager.py:52-54 | the index is that of the first id whose item matches, and no earlier id matches |
| Items.Find | item_manager.py:51-55 | a found item is stored and matches the name; nothing is found exactly when no id in the order matches |
| Items.FindNoneIff | item_manager.py:51-55 | in a well-formed cache, the lookup fails exactly when no stored item matches |
| Items.FindFirst | item_manager.py:52-54 | when several items match, the first one in insertion order is returned |
| Items.FindStoredUnderId | item_manager.py:43-54 | the item found is the one stored under its own id |
| Items.ByExactNameUnique | game_cog.py:196-200 | when names are unique, the exact-name lookup of SQL's `name = ?` finds the item of any id that bears the name |
| Items.StoreWellFormed | item_manager.py:44-45 | storing one item keeps the cache well formed |
| Items.LoadAllWellFormed | item_manager.py:43-45 | loading any rows keeps the cache well formed |
| Items.LoadAllLastRowWins | item_manager.py:43-45 | each row ends up stored under its id unless a later row has the same id |
| Items.LoadAllKeepsOthers | item_manager.py:43-45 | an id that no row carries keeps what the cache held for it |
| Items.LoadAllKeysAndOrder | item_manager.py:43-45 | loading adds exactly the ids of the rows, and the earlier insertion order is a prefix of the new one |
| Items.ItemManager.constructor | item_manager.py:32-34 | the manager starts with an empty cache and the given path |
| Items.ItemManager.LoadItemsFromDb | item_manager.py:36-45 | the cache becomes the old cache with every row stored in turn |
| Items.ItemManager.GetItem | item_manager.py:48-49 | the item is found exactly when the id is stored, and it is the stored one |
| Items.ItemManager.GetItemByName | item_manager.py:51-55 | it returns the first item in insertion order whose lower-cased name equals the lower-cased query, and None exactly when no item matches |
| Inventory.HasItem | game_cog.py:192-204 | holding a name means an item of exactly that name has a row with a positive quantity |
| Inventory.HasItemIsJoin | game_cog.py:192-204 | with unique names, holding an item means some row of an item of that name has a positive quantity |
| Inventory.AddItem | game_cog.py:206-232 | unknown name: refused and unchanged; held and stackable: the quantity goes up, clamped at max_stack; held and not stackable: unchanged; otherwise a new row with the quantity and the item's maximum durability; no other row changes |
| Inventory.RepeatedAddClampsAtMaxStack | game_cog.py:219-223 | n grants of qty leave min(old + n*qty, max_stack) |
| Inventory.AddItemAsWritten | game_cog.py:206-232 | as written, the grant raises exactly when the catalog knows the name and the player has no row of it; otherwise the reply is ok exactly for a known name, and no row is added or removed |
| Inventory.AddItemAsWrittenRaisesOnFirstGrant | game_cog.py:224-226 | as written, granting a known item the player lacks raises, where the corrected grant inserts a row |
| Inventory.FirstPotionGrantRaisesAsWritten | game_cog.py:224-226 | a concrete case: the first potion granted to a player with no rows raises as written |
| Inventory.AddItemAsWrittenAgreesOtherwise | game_cog.py:206-232 | wherever the as-written grant does not raise, it agrees with the corrected one |
| Inventory.UseTool | game_cog.py:234-283 | a tool that is not held fails and changes nothing; a tool without maximum durability is unlimited and changes nothing; otherwise durability (the maximum when NULL) drops by one, and at 0 the whole row is deleted |
| Inventory.ToolLastsItsDurability | game_cog.py:258-272 | a tool with d uses left survives n < d uses at d - n and is gone after exactly d uses |
| Inventory.Shortage | game_cog.py:340-345 | every material before the index is held in the required amount, and the one at the index is not |
| Inventory.DeductAllTakes | game_cog.py:347-348 | deducting keeps every row and takes from each row exactly what the recipe names for it |
| Inventory.DistinctNamesDistinctIds | game_cog.py:348 | different material names never resolve to the same item id |
| Inventory.TakenIsRequirement | game_cog.py:347-348 | with distinct material names, a material's row loses its required amount, and a row no material names loses nothing |
| Inventory.Craft | game_cog.py:329-363 | the rows change only on success; no recipe exactly when the name has none; a shortage exactly when the recipe exists and some material is lacking, and it reports the first lacking one; an unknown product exactly when every material suffices but the name is not in the catalog; success exactly when the recipe exists, every material suffices and the product is known, and it is the deduction followed by the grant of one product |
| Inventory.CraftTakesExactly | game_cog.py:340-361 | after a craft each material's row has lost exactly its requirement, and the product's row has gained one |
| Inventory.ConsumeOne | game_cog.py:496-499 | a quantity above one drops by one, otherwise the row is deleted; other rows are untouched |
| Players.UseItem | game_cog.py:451-499 | not held, not usable and a fault change nothing; not held and not usable are exact conditions; a used item is consumed once; for a held consumable: a fault exactly when a recovery, boost or status item has a NULL value; a recovery exactly for a recovery item with a value, healing min(max_hp - hp, value) when positive, and HP rises by exactly that amount; a boost exactly for a boost item with a value, setting the buff to now + value; a status exactly for a status item with a value, writing its effect name and the end time now + value; a pending cure exactly for a cure item; no effect exactly for any other type; HP never falls and never passes max_hp |
| Players.EffectWithoutRow | game_cog.py:470-494 | with no players row, a recovery item raises, and every other effect replies as it would for any player |
| Players.UseItemWithoutRow | game_cog.py:451-499 | with no players row, a held recovery item raises at the HP lookup and changes nothing; every other item replies and is consumed as for any player |
| Players.HpRecoveryHealsUpToMax | game_cog.py:470-480 | a recovery item heals min(max_hp - hp, value) when that is positive, and is consumed either way |
| Players.ValuelessEffectFaults | game_cog.py:470-490 | an effect whose value is NULL raises, and nothing changes |
| Players.ChooseJob | game_cog.py:424-435 | a novice choosing the swordsman or the mage job takes it and gets one skill point; anyone else is refused first, then an invalid job name; a refusal changes nothing |
| Players.ChooseJobIsFinal | game_cog.py:427-435 | after a job is chosen, every later choice is refused and changes nothing |
| World.FirstNamed | game_cog.py:610-611 | a found location is in the table and has the name; none is found exactly when no location has the name |
| World.FirstWithId | game_cog.py:680-682 | a found location is in the table and has the id; none is found exactly when no location has the id |
| World.Move | game_cog.py:610-624 | unknown exactly when no location has the name; a move happens exactly when a connection leads from the player's location to the named one, and it lands there |
| World.SeedEdgesAreSymmetric | database.py:179-189 | every seeded connection can be walked back |
| World.SeedMoves | database.py:169-189 | on the seeded map the meadow leads to the river bank but not to the cave, and the ruins lead to the cave |
| Actions.Resolve | game_cog.py:701-784 | a tool is used only when held and is one of the rods or the pickaxe; a found item is one the action can yield; the rows change by that one use followed by one grant |
| Actions.GatheringOdds | game_cog.py:702-732 | bushes yield below 50, trees at 30 or above, rubble below 40; the flavour actions never change the rows |
| Actions.FishingTakesTheBestRod | game_cog.py:733-744 | fishing works only at the river bank, takes the sturdy rod over the old one, and without a rod changes nothing |
| Actions.FishingCatch | game_cog.py:747-759 | a held rod always works; a minnow below 50, a carp below 80, nothing above |
| Actions.MiningNeedsCaveAndPickaxe | game_cog.py:764-780 | mining changes rows only in the cave with a pickaxe held, and there yields ore exactly below 60 |
| Battle.SeedSpawnsAreKnownMonsters | database.py:191-201 | every monster the seeded map spawns has a MONSTERS entry |
| Battle.AfterStatus | game_cog.py:101-112 | an active poison costs 5 HP; an expired effect is cleared; nothing else changes |
| Battle.PlayerDamage | game_cog.py:80-89 | the damage is at least the roll (when the sword's bonus is not negative) and at most the roll plus the 10-point buff plus the sword's bonus |
| Battle.LandedBlowRange | game_cog.py:80-99 | a blow rolled in [5, 15] lowers the monster's HP by at least 5 and by at most 25 plus the sword's bonus |
| Battle.GrantDrops | game_cog.py:121-125 | granting the drops loses no row |
| Battle.GrantDropsGrants | game_cog.py:121-125 | drops only add rows; every known drop that hits has a row; no hit means no change |
| Battle.GrantDropsKeepsOthers | game_cog.py:121-125 | a row no drop names is left as it was |
| Battle.Turn | game_cog.py:76-151 | a NULL sword bonus raises before anything changes; otherwise the monster loses the damage, the status phase applies, and either the win pays gold, experience and drops, or the counterattack hits with a floor of 1 HP on a loss |
| Battle.HpFloorOutsideWins | game_cog.py:133-147 | outside a win the player ends the turn with at least 1 HP and gains no gold or experience |
| Battle.PoisonedWinSkipsFloor | game_cog.py:101-131 | the floor applies only after a counterattack: a poisoned player at 3 HP who kills a spider wins at -2 HP |
| Battle.SlimeFight | game_cog.py:99-147 | two blows of 15 kill a slime: the first leaves it at 5 and costs 5 HP, the second wins 2 gold and 3 experience |
| Battle.OrcDefeat | game_cog.py:133-146 | a player at 3 HP who leaves an orc standing is set to 1 HP and loses |
| Battle.Settle | game_cog.py:115-147 | the monster keeps the HP the blow left it; a win exactly when that is 0 or below, paying its gold and experience and losing no row; a loss exactly when it stands and its attack takes the player to 0 or below; a win adds exactly the monster's gold and experience and grants its drops; a loss sets HP to 1; a continued battle takes the monster's attack off HP; outside a win the rows are unchanged |
| Battle.TurnAsWritten | game_cog.py:115-129 | the as-written turn raises exactly on a win in which some drop hits and its grant would write a row; a raised turn leaves only the sword's wear, against a monster at 0 HP or below; every turn that completes is the corrected `Turn` |
| Battle.SlimeDropLocksAsWritten | game_cog.py:115-129 | as written, a win whose drop would stack a potion leaves gold and rows as they were, where the corrected turn pays out and stacks it |
| Battle.TurnAsWrittenAgreesWithoutWrites | game_cog.py:115-129 | where no hit drop would write a row, the as-written turn is the corrected one |
| Game.RecipesHaveDistinctMaterials | game_cog.py:167-171 | no recipe names a material twice |
| Game.CogCraftTakesExactly | game_cog.py:340-361 | with the cog's recipes, a craft takes from each material's row exactly its requirement |
| Game.FirstShortage | game_cog.py:340-345 | the checking loop stops at the first lacking material, as `Shortage` says |
| Game.DeductMaterials | game_cog.py:347-348 | the deducting loop computes `DeductAll` |
| Game.CraftRows | game_cog.py:329-361 | the loops and lookups compute `Inventory.Craft` |
| Game.PhaseAfter | game_cog.py:115-148 | the battle ends exactly on a win or a loss |
| Game.GameCog.constructor | game_cog.py:163-171 | no user is busy, the recipes are the three given, and the catalog is the loaded rows |
| Game.GameCog.AddItemToInventory | game_cog.py:206-232 | the user's rows become `AddItem`'s; other users, the players and the busy set are unchanged |
| Game.GameCog.UseTool | game_cog.py:234-283 | the user's rows become `Inventory.UseTool`'s; nothing else changes |
| Game.GameCog.Craft | game_cog.py:322-363 | a busy user is refused; otherwise the reply and the rows are `Inventory.Craft`'s |
| Game.GameCog.UseItem | game_cog.py:443-503 | with a players row, the reply, the player's row and the rows become `Players.UseItem`'s; without one they are `Players.UseItemWithoutRow`'s and the players are unchanged; other users and the busy set are unchanged |
| Game.GameCog.ApplyEffect | game_cog.py:470-494 | the reply and the player's row are `Players.Effect`'s, or `Players.EffectWithoutRow`'s with the players unchanged when the user has no row |
| Game.GameCog.ChooseJob | game_cog.py:416-439 | the player's row becomes `Players.ChooseJob`'s |
| Game.GameCog.Move | game_cog.py:596-627 | a busy user is refused; otherwise the reply is `World.Move`'s, the location changes only on a move, and the user is free again |
| Game.GameCog.Explore | game_cog.py:630-668 | with spawns and a roll below 70, a fresh view opens on the picked monster and the user stays busy (or is freed when the name has no entry); otherwise a roll below 20 grants a potion, and the user is free again |
| Game.GameCog.DoAction | game_cog.py:671-792 | a busy user, a missing location, no actions or an unavailable action change nothing; otherwise the reply and the rows are `Actions.Resolve`'s, and the user is free again |
| Game.GameCog.Perform | game_cog.py:701-784 | the branch taken computes `Actions.Resolve` |
| Game.GameCog.Gather | game_cog.py:702-732 | a lucky roll grants one item, otherwise nothing changes |
| Game.GameCog.WorkWithTool | game_cog.py:745-783 | one use of the tool, then one catch if any, as `Actions.WithTool` says |
| Game.GameCog.GrantDropsTo | game_cog.py:121-125 | the drops loop computes `GrantDrops` |
| Game.BattleView.constructor | game_cog.py:28-35 | the view copies the monster's entry, engages, and times out after 60 seconds |
| Game.BattleView.HandleBattleEnd | game_cog.py:51-58 | the player is freed and the view stops |
| Game.BattleView.OnTimeout | game_cog.py:38-43 | an engaged view that times out frees the player; a stopped one changes nothing |
| Game.BattleView.InteractionCheck | game_cog.py:45-49 | a press is accepted exactly when it comes from the battle's own player; `Attack` and `Flee` change nothing on any other press |
| Game.BattleView.Flee | game_cog.py:154-158 | only the battle's player may flee; fleeing ends the battle and changes no table |
| Game.BattleView.WeaponStep | game_cog.py:80-93 | the damage is `PlayerDamage`, the sword is worn as `Wielded` says, and a NULL bonus is reported as a fault |
| Game.BattleView.Attack | game_cog.py:60-151 | a stopped view and a foreign press change nothing; a missing player ends the battle; otherwise monster, players, rows, phase and busy set follow `Battle.Turn` |
| Game.BattleView.Strike | game_cog.py:76-151 | one turn of an engaged battle follows `Battle.Turn` |
| Game.BattleView.Conclude | game_cog.py:115-151 | after the blow, the win or the counterattack follows `Battle.Settle` |

## Left out

- Discord: channels, roles (`_check_game_channel_and_role`), deferrals,
  messages, button disabling and the autocompletes are not modelled. They
  affect no table.
- `inventory`, `stats`, `skill_points`, `look_around`, `join_channel` and
  `leave_channel` are outside the modelled core.
- SQLite itself: connections, commits and rollbacks, and `sqlite3.Error`
  paths are not modelled. Each command is one atomic state change, except
  the drop grant described under Findings.
- `asyncio.sleep` before fishing and mining, and any interleaving of
  concurrent commands, are not modelled.
- Game.GameCog.ChooseJob, Game.GameCog.Explore and Game.GameCog.DoAction
  require the user to have a players row. Without one the source raises on
  the missing row (game_cog.py:425, 642 and 686), and in `explore` that leaves
  the user marked busy. `use_item` needs no such row: its item lookup is a
  join on the inventory, and only the HP lookup of a recovery item raises
  (game_cog.py:471-472), which `Players.UseItemWithoutRow` models.
- Game.GameCog.DoAction: a location id with no locations row makes the source
  raise before the user is marked busy. The model reports `NoLocation` with
  nothing changed.
- Game.GameCog.UseItem: the branch where `get_item` finds nothing cannot be
  reached, because the item id comes from a join with the items table that
  the catalog mirrors. The model reads the item from the catalog.
- Actions.Resolve: the `ToolFailed` branch cannot be reached, because a held
  tool always has the row `_use_tool` looks for.
- Items.Lower: only ASCII letters are lower-cased. Python's `str.lower` also
  maps other scripts, and no lemma depends on the mapping.
- Timestamps are whole seconds, where the source stores `time.time()` as a
  float.
- Battle messages, the durability message, and the monster HP shown in the
  log are not modelled.

## Findings

| source | as written | input that shows it | evidently intended | confidence | as-written member | corrected member |
|---|---|---|---|---|---|---|
| game_cog.py:224-226 | a new row's durability is read from `item.max_durability`, but the loader never selects that column and `Item` has no such attribute | the first 기초 회복 물약 granted to a player with no rows: the grant raises AttributeError | insert the row with the items table's maximum durability | not executed | Inventory.AddItemAsWritten (Inventory.FirstPotionGrantRaisesAsWritten) | Inventory.AddItem |
| game_cog.py:118-124 | on a win, the gold and experience update is still uncommitted on the attack's connection when `add_item_to_inventory` writes the drop through a second connection | a slime killed by a player who already holds one potion, with a potion drop roll of 10: the drop's update waits 15 seconds for the write lock and raises, and the win's gold, experience and drop are lost | commit before granting drops, or grant through the same connection | not executed | Battle.TurnAsWritten (Battle.SlimeDropLocksAsWritten) | Battle.Turn |
