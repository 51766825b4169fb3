/** The game cog of game_cog.py as objects whose state changes in place: the
    database tables it reads and writes (players, player_inventory), the set
    of users busy with a command, the item manager, and the battle view an
    encounter opens. Each command is a method whose postcondition ties the new
    state to the pure rules of the other modules. */
module Game {
  import opened Wrappers
  import opened Items
  import opened Inventory
  import opened Players
  import opened World
  import opened Actions
  import opened Battle

  /** The three crafting recipes, materials in dictionary order. */
  const Recipes: map<string, Recipe> := map[
    OldRod := [(Twig, 5), (ToughLeaf, 2)],
    SturdyRod := [(Twig, 10), (ToughLeaf, 5)],
    WeaponName := [(Twig, 2), ("돌멩이", 5)]
  ]

  /** No recipe names a material twice. */
  lemma RecipesHaveDistinctMaterials()
    ensures forall t :: t in Recipes ==> DistinctNames(Recipes[t])
  {
  }

  /** With the cog's own recipes, a completed craft takes from each material's
      row exactly its requirement. */
  lemma CogCraftTakesExactly(s: Slots, c: Catalog, target: string, id: int)
    requires WellFormed(c)
    requires Inventory.Craft(s, c, Recipes, target).outcome.Crafted?
    ensures var r := Recipes[target];
      var out := Inventory.Craft(s, c, Recipes, target).slots;
      var product := ByName(c, target).value.id;
      forall j :: 0 <= j < |r| && MaterialId(c, r[j]) == Some(id) ==>
        id in s && id in out && out[id].quantity == s[id].quantity - r[j].1 + (if id == product then 1 else 0)
  {
    RecipesHaveDistinctMaterials();
    CraftTakesExactly(s, c, Recipes, target, id);
  }

  /** The potion exploring may turn up. */
  const ExploreFind := "기초 회복 물약"

  /** A command refused because the user is busy with another, or its outcome. */
  datatype Reply<T> = Busy | Ran(outcome: T)

  datatype ExploreOutcome = Encounter(monster: string) | UnknownMonster(name: string) | FoundPotion | Quiet

  datatype DoActionOutcome = NoLocation | NoActions | Unavailable | Acted(outcome: ActionOutcome)

  /** craft's checking loop: the index of the first material held in too
      small a quantity, or |recipe| when every one is there. */
  method FirstShortage(s: Slots, c: Catalog, recipe: Recipe) returns (k: nat)
    ensures k == Shortage(s, c, recipe)
    ensures k <= |recipe| && (forall j :: 0 <= j < k ==> Enough(s, c, recipe[j]))
    ensures k < |recipe| ==> !Enough(s, c, recipe[k])
  {
    k := 0;
    while k < |recipe|
      invariant k <= |recipe|
      invariant forall j :: 0 <= j < k ==> Enough(s, c, recipe[j])
    {
      var row := ByExactName(c, recipe[k].0);
      if row.None? || row.value.id !in s || s[row.value.id].quantity < recipe[k].1 {
        return;
      }
      k := k + 1;
    }
  }

  /** craft's deducting loop: each material's row loses what the recipe requires. */
  method DeductMaterials(s: Slots, c: Catalog, recipe: Recipe) returns (t: Slots)
    ensures t == DeductAll(s, c, recipe)
  {
    t := s;
    for i := 0 to |recipe|
      invariant t == DeductAll(s, c, recipe[..i])
    {
      var row := ByExactName(c, recipe[i].0);
      if row.Some? && row.value.id in t {
        t := t[row.value.id := t[row.value.id].(quantity := t[row.value.id].quantity - recipe[i].1)];
      }
      assert recipe[..i + 1][..i] == recipe[..i];
    }
    assert recipe[..|recipe|] == recipe;
  }

  /** The body of craft on one player's rows: the recipe lookup, the checking
      loop, the deducting loop and the grant of the product, which `manager`
      looks up by name. */
  method CraftRows(s: Slots, manager: ItemManager, recipes: map<string, Recipe>, itemName: string)
    returns (outcome: CraftOutcome, t: Slots)
    requires manager.Valid()
    ensures Inventory.Craft(s, manager.Snapshot(), recipes, itemName) == CraftResult(outcome, t)
  {
    if itemName !in recipes {
      return NoRecipe, s;
    }
    var recipe := recipes[itemName];
    var cat := manager.Snapshot();
    Inventory.CraftBranches(s, cat, recipes, itemName);
    var k := FirstShortage(s, cat, recipe);
    if k < |recipe| {
      return Short(recipe[k].0, recipe[k].1), s;
    }
    t := DeductMaterials(s, cat, recipe);
    var product := manager.GetItemByName(itemName);
    if product.None? {
      return UnknownProduct, s;
    }
    var id := product.value.id;
    if id in t {
      t := t[id := t[id].(quantity := t[id].quantity + 1)];
    } else {
      t := t[id := Slot(1, None)];
    }
    return Crafted, t;
  }

  class GameCog {
    const itemManager: ItemManager
    const world: WorldMap
    const recipes: map<string, Recipe>
    /** The players table, by user id. */
    var players: map<int, Player>
    /** The player_inventory table, by user id; a user without rows may be absent. */
    var inventory: map<int, Slots>
    /** Users in the middle of a command or a battle. */
    var activeUsers: set<int>

    ghost predicate Valid()
      reads itemManager
    {
      itemManager.Valid()
    }

    function ItemCatalog(): Catalog
      reads itemManager
    {
      itemManager.Snapshot()
    }

    /** One user's inventory rows. */
    function SlotsOf(user: int): Slots
      reads this
    {
      if user in inventory then inventory[user] else map[]
    }

    /** Every other user's rows are as they were in `before`. */
    ghost predicate OthersKept(user: int, before: map<int, Slots>)
      reads this
    {
      forall u :: u != user ==> SlotsOf(u) == (if u in before then before[u] else map[])
    }

    /** The cog over the given tables, with its item cache loaded from `rows`. */
    constructor (rows: seq<Row>, world: WorldMap, players: map<int, Player>, inventory: map<int, Slots>)
      ensures Valid() && fresh(itemManager)
      ensures ItemCatalog() == LoadAll(Catalog(map[], []), rows)
      ensures this.world == world && recipes == Recipes
      ensures this.players == players && this.inventory == inventory && activeUsers == {}
    {
      var manager := new ItemManager("game.db");
      manager.LoadItemsFromDb(rows);
      itemManager := manager;
      this.world := world;
      recipes := Recipes;
      this.players := players;
      this.inventory := inventory;
      activeUsers := {};
    }

    /** add_item_to_inventory. */
    method AddItemToInventory(user: int, itemName: string, quantity: int) returns (ok: bool)
      requires Valid()
      modifies this
      ensures Valid()
      ensures var r := AddItem(old(SlotsOf(user)), ItemCatalog(), itemName, quantity);
        ok == r.ok && SlotsOf(user) == r.slots
      ensures OthersKept(user, old(inventory))
      ensures players == old(players) && activeUsers == old(activeUsers)
    {
      var item := itemManager.GetItemByName(itemName);
      if item.None? {
        return false;
      }
      var it := item.value;
      var s := SlotsOf(user);
      if it.id in s && it.stackable {
        var q := s[it.id].quantity + quantity;
        if q > it.maxStack {
          q := it.maxStack;
        }
        inventory := inventory[user := s[it.id := s[it.id].(quantity := q)]];
      } else if it.id !in s {
        inventory := inventory[user := s[it.id := Slot(quantity, it.maxDurability)]];
      }
      return true;
    }

    /** _use_tool. */
    method UseTool(user: int, toolName: string) returns (ok: bool, outcome: ToolOutcome)
      modifies this
      ensures var r := Inventory.UseTool(old(SlotsOf(user)), ItemCatalog(), toolName);
        outcome == r.outcome && ok == r.Succeeded() && SlotsOf(user) == r.slots
      ensures OthersKept(user, old(inventory))
      ensures players == old(players) && activeUsers == old(activeUsers)
    {
      var found := ByExactName(ItemCatalog(), toolName);
      var s := SlotsOf(user);
      if found.None? || found.value.id !in s {
        return false, ToolMissing;
      }
      var it := found.value;
      if it.maxDurability.None? {
        return true, Unlimited;
      }
      var current := if s[it.id].durability.Some? then s[it.id].durability.value else it.maxDurability.value;
      var next := current - 1;
      if next > 0 {
        inventory := inventory[user := s[it.id := s[it.id].(durability := Some(next))]];
        return true, Worn(next);
      }
      inventory := inventory[user := s - {it.id}];
      return true, Broke;
    }

    /** craft: all materials are checked, then all deducted, then the product
        granted; the rows are written only when the craft completes. A busy
        user is refused, but crafting never marks the user busy itself. */
    method Craft(user: int, itemName: string) returns (reply: Reply<CraftOutcome>)
      requires Valid()
      modifies this
      ensures Valid()
      ensures user in old(activeUsers) ==> reply == Busy && inventory == old(inventory)
      ensures user !in old(activeUsers) ==>
        var r := Inventory.Craft(old(SlotsOf(user)), ItemCatalog(), recipes, itemName);
        reply == Ran(r.outcome) && SlotsOf(user) == r.slots
      ensures OthersKept(user, old(inventory))
      ensures players == old(players) && activeUsers == old(activeUsers)
    {
      if user in activeUsers {
        return Busy;
      }
      var outcome, rows := CraftRows(SlotsOf(user), itemManager, recipes, itemName);
      if outcome.Crafted? {
        inventory := inventory[user := rows];
      }
      return Ran(outcome);
    }

    /** use_item: the effect by type, then one of the item consumed. A user
        without a players row is served by the inventory join alone. */
    method UseItem(user: int, itemName: string, now: int) returns (outcome: UseOutcome)
      modifies this
      ensures user in old(players) ==>
        var r := Players.UseItem(old(players[user]), old(SlotsOf(user)), ItemCatalog(), itemName, now);
        outcome == r.outcome && players == old(players)[user := r.player] && SlotsOf(user) == r.slots
      ensures user !in old(players) ==>
        var r := UseItemWithoutRow(old(SlotsOf(user)), ItemCatalog(), itemName, now);
        outcome == r.0 && players == old(players) && SlotsOf(user) == r.1
      ensures OthersKept(user, old(inventory))
      ensures activeUsers == old(activeUsers)
    {
      var found := ByExactName(ItemCatalog(), itemName);
      var s := SlotsOf(user);
      if found.None? || found.value.id !in s {
        return NotHeld;
      }
      var it := found.value;
      if it.itemType != Consumable {
        return NotUsable;
      }
      outcome := ApplyEffect(user, it, now);
      if outcome.Faulted? {
        return;
      }
      if s[it.id].quantity > 1 {
        inventory := inventory[user := s[it.id := s[it.id].(quantity := s[it.id].quantity - 1)]];
      } else {
        inventory := inventory[user := s - {it.id}];
      }
    }

    /** use_item's branch on the effect type, up to the consumption. */
    method ApplyEffect(user: int, it: Item, now: int) returns (outcome: UseOutcome)
      modifies this`players
      ensures user in old(players) ==>
        var e := Effect(old(players[user]), it, now);
        outcome == e.0 && players == old(players)[user := e.1]
      ensures user !in old(players) ==> outcome == EffectWithoutRow(it, now) && players == old(players)
    {
      if it.effectType == Some(HpRecovery) {
        if user !in players || it.effectValue.None? {
          return Faulted;
        }
        var p := players[user];
        var recovered := Min(MaxHp(p.level) - p.hp, it.effectValue.value);
        if recovered <= 0 {
          outcome := AlreadyFull;
        } else {
          players := players[user := p.(hp := p.hp + recovered)];
          outcome := Recovered(recovered);
        }
      } else if it.effectType == Some(AttackBoost) {
        if it.effectValue.None? {
          return Faulted;
        }
        var until := now + it.effectValue.value;
        if user in players {
          players := players[user := players[user].(attackBuffUntil := until)];
        }
        outcome := Boosted(until);
      } else if it.effectType == Some(StatusApply) {
        if it.effectValue.None? {
          return Faulted;
        }
        var until := now + it.effectValue.value;
        if user in players {
          players := players[user := players[user].(statusEffect := it.effectName, statusEffectEndTime := until)];
        }
        outcome := StatusApplied(it.effectName, until);
      } else if it.effectType == Some(StatusCure) {
        outcome := CurePending;
      } else {
        outcome := NoEffect;
      }
    }

    /** choose_job. */
    method ChooseJob(user: int, jobName: string) returns (outcome: JobOutcome)
      requires user in players
      modifies this
      ensures var r := Players.ChooseJob(old(players[user]), jobName);
        outcome == r.0 && players == old(players)[user := r.1]
      ensures inventory == old(inventory) && activeUsers == old(activeUsers)
    {
      var current := players[user].job;
      if current != Novice {
        return AlreadyChosen(current);
      }
      if jobName != Swordsman && jobName != Mage {
        return InvalidJob;
      }
      players := players[user := players[user].(job := jobName, skp := 1)];
      return JobChosen;
    }

    /** move: the user is busy while it runs and free again afterwards. */
    method Move(user: int, destination: string) returns (reply: Reply<MoveOutcome>)
      modifies this
      ensures user in old(activeUsers) ==> reply == Busy && players == old(players)
      ensures user !in old(activeUsers) ==>
        var from := if user in old(players) then Some(old(players)[user].location) else None;
        var m := World.Move(world, from, destination);
        && reply == Ran(m)
        && (m.Moved? ==> user in old(players) && players == old(players)[user := old(players)[user].(location := m.to)])
        && (!m.Moved? ==> players == old(players))
      ensures inventory == old(inventory) && activeUsers == old(activeUsers)
    {
      if user in activeUsers {
        return Busy;
      }
      activeUsers := activeUsers + {user};
      var dest := FirstNamed(world.locations, destination);
      if dest.None? {
        activeUsers := activeUsers - {user};
        return Ran(UnknownDestination);
      }
      if user !in players || (players[user].location, dest.value.id) !in world.edges {
        activeUsers := activeUsers - {user};
        return Ran(NoConnection);
      }
      players := players[user := players[user].(location := dest.value.id)];
      activeUsers := activeUsers - {user};
      return Ran(Moved(dest.value.id));
    }

    /** explore: with monsters around and `encounterRoll` below 70 a battle opens
        against the one `pick` selects (modulo their number) and the user stays
        busy; otherwise `findRoll` below 20 finds a potion. Both rolls stand for
        `random.random()` as a whole percentage in [0, 100). */
    method Explore(user: int, encounterRoll: int, pick: nat, findRoll: int)
      returns (reply: Reply<ExploreOutcome>, view: BattleView?)
      requires Valid() && user in players
      modifies this
      ensures Valid()
      ensures players == old(players) && OthersKept(user, old(inventory))
      ensures user in old(activeUsers) ==>
        reply == Busy && view == null && inventory == old(inventory) && activeUsers == old(activeUsers)
      ensures user !in old(activeUsers) ==>
        var spawns := MonstersAt(world, old(players[user].location));
        var encounter := |spawns| > 0 && encounterRoll < 70;
        && (encounter ==>
              var name := spawns[pick % |spawns|];
              && inventory == old(inventory)
              && (name in Monsters ==>
                    && reply == Ran(Encounter(name))
                    && view != null && fresh(view)
                    && view.game == this && view.playerId == user && view.monsterName == name
                    && view.monster == Monsters[name] && view.phase == Engaged
                    && activeUsers == old(activeUsers) + {user})
              && (name !in Monsters ==> reply == Ran(UnknownMonster(name)) && view == null && activeUsers == old(activeUsers)))
        && (!encounter ==> view == null && activeUsers == old(activeUsers))
        && (!encounter && findRoll < 20 ==>
              reply == Ran(FoundPotion) && SlotsOf(user) == AddItem(old(SlotsOf(user)), ItemCatalog(), ExploreFind, 1).slots)
        && (!encounter && findRoll >= 20 ==> reply == Ran(Quiet) && inventory == old(inventory))
    {
      view := null;
      if user in activeUsers {
        return Busy, null;
      }
      activeUsers := activeUsers + {user};
      var spawns := MonstersAt(world, players[user].location);
      if |spawns| > 0 && encounterRoll < 70 {
        var name := spawns[pick % |spawns|];
        if name !in Monsters {
          activeUsers := activeUsers - {user};
          return Ran(UnknownMonster(name)), null;
        }
        view := new BattleView(this, user, name);
        return Ran(Encounter(name)), view;
      }
      if findRoll < 20 {
        var _ := AddItemToInventory(user, ExploreFind, 1);
        reply := Ran(FoundPotion);
      } else {
        reply := Ran(Quiet);
      }
      activeUsers := activeUsers - {user};
    }

    /** do_action: the location must offer the action; the user is busy while
        it runs and free again afterwards. */
    method DoAction(user: int, actionName: string, roll: int) returns (reply: Reply<DoActionOutcome>)
      requires Valid() && user in players
      modifies this
      ensures Valid()
      ensures players == old(players) && activeUsers == old(activeUsers) && OthersKept(user, old(inventory))
      ensures user in old(activeUsers) ==> reply == Busy && SlotsOf(user) == old(SlotsOf(user))
      ensures user !in old(activeUsers) ==>
        var here := FirstWithId(world.locations, old(players[user].location));
        && (here.None? ==> reply == Ran(NoLocation) && SlotsOf(user) == old(SlotsOf(user)))
        && (here.Some? && here.value.actions.None? ==> reply == Ran(NoActions) && SlotsOf(user) == old(SlotsOf(user)))
        && (here.Some? && here.value.actions.Some? && actionName !in here.value.actions.value ==>
              reply == Ran(Unavailable) && SlotsOf(user) == old(SlotsOf(user)))
        && (here.Some? && here.value.actions.Some? && actionName in here.value.actions.value ==>
              var r := Resolve(actionName, here.value.name, old(SlotsOf(user)), ItemCatalog(), roll);
              reply == Ran(Acted(r.outcome)) && SlotsOf(user) == r.slots)
    {
      if user in activeUsers {
        return Busy;
      }
      var here := FirstWithId(world.locations, players[user].location);
      if here.None? {
        return Ran(NoLocation);
      }
      if here.value.actions.None? {
        return Ran(NoActions);
      }
      if actionName !in here.value.actions.value {
        return Ran(Unavailable);
      }
      activeUsers := activeUsers + {user};
      var outcome := Perform(user, actionName, here.value.name, roll);
      activeUsers := activeUsers - {user};
      return Ran(Acted(outcome));
    }

    /** The branch of do_action that runs the action. */
    method Perform(user: int, actionName: string, here: string, roll: int) returns (outcome: ActionOutcome)
      requires Valid()
      modifies this
      ensures Valid()
      ensures var r := Resolve(actionName, here, old(SlotsOf(user)), ItemCatalog(), roll);
        outcome == r.outcome && SlotsOf(user) == r.slots
      ensures players == old(players) && activeUsers == old(activeUsers) && OthersKept(user, old(inventory))
    {
      if actionName == BushSearch {
        outcome := Gather(user, roll < 50, Twig);
      } else if actionName == TreeClimb {
        outcome := Gather(user, roll >= 30, ToughLeaf);
      } else if actionName == ThicketPush || actionName == MushroomPick || actionName == DoorKnock {
        outcome := NothingFound;
      } else if actionName == RubbleSearch {
        outcome := Gather(user, roll < 40, OldPickaxe);
      } else if actionName == Fishing {
        if here != Riverside {
          return WrongPlace;
        }
        var rod: Option<string> := None;
        if HasItem(SlotsOf(user), ItemCatalog(), SturdyRod) {
          rod := Some(SturdyRod);
        } else if HasItem(SlotsOf(user), ItemCatalog(), OldRod) {
          rod := Some(OldRod);
        }
        if rod.None? {
          return NoRod;
        }
        outcome := WorkWithTool(user, rod.value, if roll < 50 then Some(Minnow) else if roll < 80 then Some(Carp) else None);
      } else if actionName == Mining {
        if here != DarkCave {
          return WrongPlace;
        }
        if !HasItem(SlotsOf(user), ItemCatalog(), OldPickaxe) {
          return NoPickaxe;
        }
        outcome := WorkWithTool(user, OldPickaxe, if roll < 60 then Some(IronOre) else None);
      } else {
        outcome := Unhandled;
      }
    }

    /** A gathering branch: grants one `item` when `lucky`. */
    method Gather(user: int, lucky: bool, item: string) returns (outcome: ActionOutcome)
      requires Valid()
      modifies this
      ensures Valid()
      ensures lucky ==> outcome == Found(item) && SlotsOf(user) == AddItem(old(SlotsOf(user)), ItemCatalog(), item, 1).slots
      ensures !lucky ==> outcome == NothingFound && inventory == old(inventory)
      ensures players == old(players) && activeUsers == old(activeUsers) && OthersKept(user, old(inventory))
    {
      if lucky {
        var _ := AddItemToInventory(user, item, 1);
        return Found(item);
      }
      return NothingFound;
    }

    /** A tool branch: one use of `tool`, then one of `catch` if any. */
    method WorkWithTool(user: int, tool: string, catch: Option<string>) returns (outcome: ActionOutcome)
      requires Valid()
      modifies this
      ensures Valid()
      ensures var r := WithTool(old(SlotsOf(user)), ItemCatalog(), tool, catch);
        outcome == r.outcome && SlotsOf(user) == r.slots
      ensures players == old(players) && activeUsers == old(activeUsers) && OthersKept(user, old(inventory))
    {
      var ok, _ := UseTool(user, tool);
      if !ok {
        return ToolFailed;
      }
      if catch.None? {
        return NothingFound;
      }
      var _ := AddItemToInventory(user, catch.value, 1);
      return Found(catch.value);
    }

    /** The drops loop of a won battle: each drop whose roll hits is granted once. */
    method GrantDropsTo(user: int, drops: seq<(string, int)>, rolls: seq<int>)
      requires Valid() && |rolls| == |drops|
      modifies this
      ensures Valid()
      ensures SlotsOf(user) == GrantDrops(old(SlotsOf(user)), ItemCatalog(), drops, rolls)
      ensures players == old(players) && activeUsers == old(activeUsers) && OthersKept(user, old(inventory))
    {
      ghost var s0 := SlotsOf(user);
      for i := 0 to |drops|
        invariant Valid()
        invariant SlotsOf(user) == GrantDrops(s0, ItemCatalog(), drops[..i], rolls[..i])
        invariant players == old(players) && activeUsers == old(activeUsers) && OthersKept(user, old(inventory))
      {
        if rolls[i] < drops[i].1 {
          var _ := AddItemToInventory(user, drops[i].0, 1);
        }
        assert drops[..i + 1][..i] == drops[..i];
        assert rolls[..i + 1][..i] == rolls[..i];
      }
      assert drops[..|drops|] == drops && rolls[..|rolls|] == rolls;
    }
  }

  // ---------------------------------------------------------------------------
  // BattleView

  datatype Phase = Engaged | Victory | Defeat | Escaped | TimedOut | Aborted

  /** What a button press did. */
  datatype Press = Ignored | NotYourBattle | PlayerMissing | Struck(outcome: TurnOutcome) | Fled

  /** The phase a turn leaves the battle in. */
  function PhaseAfter(t: TurnOutcome): (ph: Phase)
    ensures ph == Engaged <==> !(t.Won? || t.Lost?)
  {
    match t
    case Won => Victory
    case Lost => Defeat
    case _ => Engaged
  }

  class BattleView {
    const game: GameCog
    const playerId: int
    const monsterName: string
    /** Seconds without a press before the view times out. */
    const timeout: int
    /** This battle's copy of the monster's entry; only its HP changes. */
    var monster: Monster
    var phase: Phase

    ghost predicate Valid()
      reads game.itemManager
    {
      game.Valid() && monsterName in Monsters
    }

    constructor (game: GameCog, playerId: int, monsterName: string)
      requires monsterName in Monsters
      ensures this.game == game && this.playerId == playerId && this.monsterName == monsterName
      ensures timeout == 60 && monster == Monsters[monsterName] && phase == Engaged
    {
      this.game := game;
      this.playerId := playerId;
      this.monsterName := monsterName;
      timeout := 60;
      monster := Monsters[monsterName];
      phase := Engaged;
    }

    /** Only the player who started the battle may press its buttons. */
    predicate InteractionCheck(actor: int)
    {
      actor == playerId
    }

    /** handle_battle_end: the player is free again and the view stops. */
    method HandleBattleEnd(final: Phase)
      requires final != Engaged
      modifies this, game`activeUsers
      ensures phase == final && monster == old(monster)
      ensures game.activeUsers == old(game.activeUsers) - {playerId}
    {
      game.activeUsers := game.activeUsers - {playerId};
      phase := final;
    }

    /** on_timeout: a battle left alone frees the player; a stopped view never times out. */
    method OnTimeout()
      modifies this, game`activeUsers
      ensures old(phase) == Engaged ==> phase == TimedOut && game.activeUsers == old(game.activeUsers) - {playerId}
      ensures old(phase) != Engaged ==> phase == old(phase) && game.activeUsers == old(game.activeUsers)
      ensures monster == old(monster)
    {
      if phase == Engaged {
        game.activeUsers := game.activeUsers - {playerId};
        phase := TimedOut;
      }
    }

    /** flee: the battle ends with nothing gained or lost. */
    method Flee(actor: int) returns (press: Press)
      modifies this, game`activeUsers
      ensures old(phase) != Engaged ==> press == Ignored
      ensures old(phase) == Engaged && !InteractionCheck(actor) ==> press == NotYourBattle
      ensures old(phase) == Engaged && InteractionCheck(actor) ==>
        press == Fled && phase == Escaped && game.activeUsers == old(game.activeUsers) - {playerId}
      ensures press != Fled ==> phase == old(phase) && game.activeUsers == old(game.activeUsers)
      ensures monster == old(monster)
    {
      if phase != Engaged {
        return Ignored;
      }
      if !InteractionCheck(actor) {
        return NotYourBattle;
      }
      HandleBattleEnd(Escaped);
      return Fled;
    }

    /** The player's damage for this press: the roll, the buff bonus and, when
        the sword is held, its bonus and one use of it. `fault` reports a sword
        whose bonus is NULL, where the addition raises before the sword is used. */
    method WeaponStep(p: Player, roll: int, now: int) returns (fault: bool, damage: int)
      requires Valid()
      modifies game
      ensures Valid()
      ensures fault <==> Armed(old(game.SlotsOf(playerId)), game.ItemCatalog()) && WeaponBonus(game.ItemCatalog()).None?
      ensures fault ==> game.inventory == old(game.inventory)
      ensures !fault ==>
        && damage == PlayerDamage(p, old(game.SlotsOf(playerId)), game.ItemCatalog(), roll, now)
        && game.SlotsOf(playerId) == Wielded(old(game.SlotsOf(playerId)), game.ItemCatalog())
      ensures game.OthersKept(playerId, old(game.inventory))
      ensures game.players == old(game.players) && game.activeUsers == old(game.activeUsers)
    {
      var cat := game.ItemCatalog();
      damage := roll;
      if BuffActive(p, now) {
        damage := damage + BuffBonus;
      }
      if HasItem(game.SlotsOf(playerId), cat, WeaponName) {
        var weapon := game.itemManager.GetItemByName(WeaponName);
        if weapon.Some? && weapon.value.effectType == Some(AttackBoost) {
          if weapon.value.effectValue.None? {
            return true, damage;
          }
          damage := damage + weapon.value.effectValue.value;
        }
        var _, _ := game.UseTool(playerId, WeaponName);
      }
      return false, damage;
    }

    /** attack: one turn of `Battle.Turn` applied to the battle and the tables;
        a won or lost battle ends. */
    method Attack(actor: int, roll: int, now: int, dropRolls: seq<int>) returns (press: Press)
      requires Valid()
      requires |dropRolls| == |Monsters[monsterName].drops|
      modifies this, game
      ensures Valid()
      ensures old(phase) != Engaged || !InteractionCheck(actor) ==>
        && press == (if old(phase) != Engaged then Ignored else NotYourBattle)
        && phase == old(phase) && monster == old(monster)
        && game.players == old(game.players) && game.inventory == old(game.inventory)
        && game.activeUsers == old(game.activeUsers)
      ensures old(phase) == Engaged && InteractionCheck(actor) && playerId !in old(game.players) ==>
        && press == PlayerMissing && phase == Aborted && monster == old(monster)
        && game.players == old(game.players) && game.inventory == old(game.inventory)
        && game.activeUsers == old(game.activeUsers) - {playerId}
      ensures old(phase) == Engaged && InteractionCheck(actor) && playerId in old(game.players) ==>
        var t := Turn(old(game.players[playerId]), old(game.SlotsOf(playerId)), game.ItemCatalog(),
                      old(monster), Monsters[monsterName].drops, roll, now, dropRolls);
        && press == Struck(t.outcome)
        && monster == old(monster).(hp := t.monsterHp)
        && game.players == old(game.players)[playerId := t.player]
        && game.SlotsOf(playerId) == t.slots
        && game.OthersKept(playerId, old(game.inventory))
        && phase == PhaseAfter(t.outcome)
        && game.activeUsers == (if phase == Engaged then old(game.activeUsers) else old(game.activeUsers) - {playerId})
    {
      if phase != Engaged {
        return Ignored;
      }
      if !InteractionCheck(actor) {
        return NotYourBattle;
      }
      if playerId !in game.players {
        HandleBattleEnd(Aborted);
        return PlayerMissing;
      }
      var outcome := Strike(roll, now, dropRolls);
      return Struck(outcome);
    }

    /** One turn of an engaged battle whose player has a row. */
    method Strike(roll: int, now: int, dropRolls: seq<int>) returns (outcome: TurnOutcome)
      requires Valid() && phase == Engaged && playerId in game.players
      requires |dropRolls| == |Monsters[monsterName].drops|
      modifies this, game
      ensures Valid()
      ensures var t := Turn(old(game.players[playerId]), old(game.SlotsOf(playerId)), game.ItemCatalog(),
                            old(monster), Monsters[monsterName].drops, roll, now, dropRolls);
        && outcome == t.outcome
        && monster == old(monster).(hp := t.monsterHp)
        && game.players == old(game.players)[playerId := t.player]
        && game.SlotsOf(playerId) == t.slots
        && game.OthersKept(playerId, old(game.inventory))
        && phase == PhaseAfter(t.outcome)
        && game.activeUsers == (if phase == Engaged then old(game.activeUsers) else old(game.activeUsers) - {playerId})
    {
      var p := game.players[playerId];
      ghost var s0 := game.SlotsOf(playerId);
      ghost var cat := game.ItemCatalog();
      ghost var m0 := monster;
      ghost var drops := Monsters[monsterName].drops;
      var fault, damage := WeaponStep(p, roll, now);
      if fault {
        TurnFaults(p, s0, cat, m0, drops, roll, now, dropRolls);
        return WeaponFault;
      }
      TurnLands(p, s0, cat, m0, drops, roll, now, dropRolls);
      ghost var inv1 := game.inventory;
      monster := monster.(hp := monster.hp - damage);
      if Poisoned(p, now) {
        game.players := game.players[playerId := game.players[playerId].(hp := p.hp - PoisonDamage)];
      }
      if StatusExpired(p, now) {
        game.players := game.players[playerId := game.players[playerId].(
          statusEffect := None, statusEffectEndTime := 0, statusEffectValue := 0)];
      }
      assert game.players == old(game.players)[playerId := AfterStatus(p, now)];
      ghost var t := Settle(AfterStatus(p, now), Wielded(s0, cat), cat, m0.(hp := m0.hp - damage), drops, dropRolls);
      assert game.SlotsOf(playerId) == Wielded(s0, cat);
      assert monster == m0.(hp := m0.hp - damage);
      outcome := Conclude(dropRolls);
      assert outcome == t.outcome;
      assert monster == m0.(hp := t.monsterHp);
      assert game.players == old(game.players)[playerId := t.player];
      assert game.SlotsOf(playerId) == t.slots;
      assert game.OthersKept(playerId, inv1);
      assert game.OthersKept(playerId, old(game.inventory));
    }

    /** The end of a turn whose blow has landed: `monster` and the player's row
        already show it, and the battle is won or the monster strikes back. */
    method Conclude(dropRolls: seq<int>) returns (outcome: TurnOutcome)
      requires Valid() && phase == Engaged && playerId in game.players
      requires |dropRolls| == |Monsters[monsterName].drops|
      modifies this, game
      ensures Valid()
      ensures var t := Settle(old(game.players[playerId]), old(game.SlotsOf(playerId)), game.ItemCatalog(),
                              old(monster), Monsters[monsterName].drops, dropRolls);
        && outcome == t.outcome
        && monster == old(monster) && t.monsterHp == monster.hp
        && game.players == old(game.players)[playerId := t.player]
        && game.SlotsOf(playerId) == t.slots
        && game.OthersKept(playerId, old(game.inventory))
        && phase == PhaseAfter(t.outcome)
        && game.activeUsers == (if phase == Engaged then old(game.activeUsers) else old(game.activeUsers) - {playerId})
    {
      var q := game.players[playerId];
      if monster.hp <= 0 {
        game.players := game.players[playerId := q.(gold := q.gold + monster.gold, exp := q.exp + monster.exp)];
        game.GrantDropsTo(playerId, Monsters[monsterName].drops, dropRolls);
        HandleBattleEnd(Victory);
        return Won;
      }
      var hp := q.hp - monster.attack;
      if hp <= 0 {
        game.players := game.players[playerId := q.(hp := 1)];
        HandleBattleEnd(Defeat);
        return Lost;
      }
      game.players := game.players[playerId := q.(hp := hp)];
      return Continues;
    }
  }
}
